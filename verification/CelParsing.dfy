/** The restricted expression language: its tokens, its syntax trees, what the parser makes of a list of
    tokens, and how a tree is written down again. */
module CelParsing {
  import opened Wrappers

  datatype Kind = Identifier | String | Number | Operator | Punctuation | Eof

  datatype Token = Token(kind: Kind, value: string, offset: nat)

  /** A number literal is kept as its text; which texts are JSON-safe numbers is a parameter. */
  datatype Value = Text(s: string) | Digits(text: string) | Boolean(b: bool) | NullValue

  datatype Entry = Entry(key: string, value: Expression, offset: nat)

  datatype Expression =
    | Literal(value: Value, offset: nat)
    | Input(offset: nat)
    | Array(elements: seq<Expression>, offset: nat)
    | Object(entries: seq<Entry>, offset: nat)
    | Unary(operator: string, operand: Expression, offset: nat)
    | Binary(operator: string, left: Expression, right: Expression, offset: nat)
    | Conditional(condition: Expression, whenTrue: Expression, whenFalse: Expression, offset: nat)

  datatype Complaint =
    | MemberAccess | FunctionCall | Unexpected(value: string) | Expected(value: string)
    | KeyNotString | DuplicateKey(key: string) | UnsafeNumber | UnknownIdentifier(name: string)

  datatype Error = Error(complaint: Complaint, offset: nat)

  type Parsed = Result<(Expression, nat), Error>

  /** What is parsed, for which option, and which number texts are JSON-safe. */
  datatype Source = Source(tokens: seq<Token>, variable: string, safe: string -> bool)

  /** The tokens are what the tokenizer returns: closed by the one eof. */
  predicate Ready(src: Source) {
    && src.tokens != []
    && (forall i :: 0 <= i < |src.tokens| ==> (src.tokens[i].kind.Eof? <==> i == |src.tokens| - 1))
    && src.tokens[|src.tokens| - 1].value == ""
    && src.variable !in {"true", "false", "null"}
  }

  const LEVELS: seq<set<string>> :=
    [{}, {"||"}, {"&&"}, {"==", "!="}, {"<", "<=", ">", ">="}, {"+", "-"}, {"*", "/", "%"}]

  const SIGNS := {"!", "-", "+"}

  // ---------- What the parser makes of the tokens from position i on ----------

  predicate Operates(t: Token, level: nat)
    requires 1 <= level <= 6
  {
    t.kind.Operator? && t.value in LEVELS[level]
  }

  function ParseConditional(src: Source, i: nat): (r: Parsed)
    requires Ready(src) && i < |src.tokens|
    ensures r.Ok? ==> i < r.value.1 < |src.tokens|
    decreases |src.tokens| - i, 10
  {
    var c := ParseBinary(src, 1, i);
    if c.Err? || src.tokens[c.value.1].value != "?" then c
    else
      var t := ParseConditional(src, c.value.1 + 1);
      if t.Err? then t
      else if src.tokens[t.value.1].value != ":" then Err(Error(Expected(":"), src.tokens[t.value.1].offset))
      else
        var f := ParseConditional(src, t.value.1 + 1);
        if f.Err? then f
        else Ok((Conditional(c.value.0, t.value.0, f.value.0, c.value.0.offset), f.value.1))
  }

  /** The six binary levels; the operands of the last are unary expressions. */
  function ParseBinary(src: Source, level: nat, i: nat): (r: Parsed)
    requires Ready(src) && i < |src.tokens| && 1 <= level <= 7
    ensures r.Ok? ==> i < r.value.1 < |src.tokens|
    decreases |src.tokens| - i, 9 - level
  {
    if level == 7 then ParseUnary(src, i)
    else
      var first := ParseBinary(src, level + 1, i);
      if first.Err? then first else ParseRest(src, level, first.value.0, first.value.1)
  }

  function ParseRest(src: Source, level: nat, left: Expression, i: nat): (r: Parsed)
    requires Ready(src) && i < |src.tokens| && 1 <= level <= 6
    ensures r.Ok? ==> i <= r.value.1 < |src.tokens|
    decreases |src.tokens| - i, 0
  {
    var t := src.tokens[i];
    if !Operates(t, level) then Ok((left, i))
    else
      var right := ParseBinary(src, level + 1, i + 1);
      if right.Err? then right
      else ParseRest(src, level, Binary(t.value, left, right.value.0, t.offset), right.value.1)
  }

  function ParseUnary(src: Source, i: nat): (r: Parsed)
    requires Ready(src) && i < |src.tokens|
    ensures r.Ok? ==> i < r.value.1 < |src.tokens|
    decreases |src.tokens| - i, 1
  {
    var t := src.tokens[i];
    if t.kind.Operator? && t.value in SIGNS then
      var operand := ParseUnary(src, i + 1);
      if operand.Err? then operand else Ok((Unary(t.value, operand.value.0, t.offset), operand.value.1))
    else ParsePrimary(src, i)
  }

  function ParseName(src: Source, t: Token): Result<Expression, Error> {
    if t.value == src.variable then Ok(Input(t.offset))
    else if t.value == "true" || t.value == "false" then Ok(Literal(Boolean(t.value == "true"), t.offset))
    else if t.value == "null" then Ok(Literal(NullValue, t.offset))
    else Err(Error(UnknownIdentifier(t.value), t.offset))
  }

  function ParsePrimary(src: Source, i: nat): (r: Parsed)
    requires Ready(src) && i < |src.tokens|
    ensures r.Ok? ==> i < r.value.1 < |src.tokens|
    decreases |src.tokens| - i, 0
  {
    var t := src.tokens[i];
    if t.kind.Number? then
      if src.safe(t.value) then Ok((Literal(Digits(t.value), t.offset), i + 1)) else Err(Error(UnsafeNumber, t.offset))
    else if t.kind.String? then Ok((Literal(Text(t.value), t.offset), i + 1))
    else if t.kind.Identifier? then
      if src.tokens[i + 1].value == "(" then Err(Error(FunctionCall, src.tokens[i + 1].offset))
      else
        var name := ParseName(src, t);
        if name.Err? then Err(name.error) else Ok((name.value, i + 1))
    else if t.value == "(" then
      var e := ParseConditional(src, i + 1);
      if e.Err? then e
      else if src.tokens[e.value.1].value != ")" then Err(Error(Expected(")"), src.tokens[e.value.1].offset))
      else Ok((e.value.0, e.value.1 + 1))
    else if t.value == "[" then
      if src.tokens[i + 1].value == "]" then Ok((Array([], t.offset), i + 2))
      else
        var l := ParseElements(src, [], i + 1);
        if l.Err? then Err(l.error) else Ok((Array(l.value.0, t.offset), l.value.1))
    else if t.value == "{" then
      if src.tokens[i + 1].value == "}" then Ok((Object([], t.offset), i + 2))
      else
        var l := ParseEntries(src, [], i + 1);
        if l.Err? then Err(l.error) else Ok((Object(l.value.0, t.offset), l.value.1))
    else Err(Error(Unexpected(t.value), t.offset))
  }

  function ParseElements(src: Source, done: seq<Expression>, i: nat): (r: Result<(seq<Expression>, nat), Error>)
    requires Ready(src) && i < |src.tokens|
    ensures r.Ok? ==> i < r.value.1 < |src.tokens|
    decreases |src.tokens| - i, 11
  {
    var e := ParseConditional(src, i);
    if e.Err? then Err(e.error)
    else
      var next := src.tokens[e.value.1];
      var elements := done + [e.value.0];
      if next.value == "," then ParseElements(src, elements, e.value.1 + 1)
      else if next.value == "]" then Ok((elements, e.value.1 + 1))
      else Err(Error(Expected("]"), next.offset))
  }

  predicate HasKey(entries: seq<Entry>, key: string) {
    exists k :: 0 <= k < |entries| && entries[k].key == key
  }

  function ParseEntries(src: Source, done: seq<Entry>, i: nat): (r: Result<(seq<Entry>, nat), Error>)
    requires Ready(src) && i < |src.tokens|
    ensures r.Ok? ==> i < r.value.1 < |src.tokens|
    decreases |src.tokens| - i, 11
  {
    var key := src.tokens[i];
    if !key.kind.String? then Err(Error(KeyNotString, key.offset))
    else if HasKey(done, key.value) then Err(Error(DuplicateKey(key.value), key.offset))
    else if src.tokens[i + 1].value != ":" then Err(Error(Expected(":"), src.tokens[i + 1].offset))
    else
      var v := ParseConditional(src, i + 2);
      if v.Err? then Err(v.error)
      else
        var next := src.tokens[v.value.1];
        var entries := done + [Entry(key.value, v.value.0, key.offset)];
        if next.value == "," then ParseEntries(src, entries, v.value.1 + 1)
        else if next.value == "}" then Ok((entries, v.value.1 + 1))
        else Err(Error(Expected("}"), next.offset))
  }

  /** parseRestrictedCel. */
  function ParseAll(src: Source): Result<Expression, Error>
    requires Ready(src)
  {
    var e := ParseConditional(src, 0);
    if e.Err? then Err(e.error)
    else
      var trailing := src.tokens[e.value.1];
      if trailing.kind.Eof? then Ok(e.value.0)
      else if trailing.value == "." then Err(Error(MemberAccess, trailing.offset))
      else if trailing.value == "(" then Err(Error(FunctionCall, trailing.offset))
      else Err(Error(Unexpected(trailing.value), trailing.offset))
  }

  // ---------- Which trees can be written ----------

  function Precedence(operator: string): (level: nat)
    ensures level <= 6 && (level > 0 ==> operator in LEVELS[level])
  {
    if operator in LEVELS[1] then 1 else if operator in LEVELS[2] then 2 else if operator in LEVELS[3] then 3
    else if operator in LEVELS[4] then 4 else if operator in LEVELS[5] then 5 else if operator in LEVELS[6] then 6 else 0
  }

  predicate UniqueKeys(entries: seq<Entry>) {
    forall a, b :: 0 <= a < b < |entries| ==> entries[a].key != entries[b].key
  }

  /** The trees the parser can return: numbers are safe, operators known, keys unique, a conditional stands
      where its condition does; and no object begins with the key "}", which would end it. */
  predicate WellFormed(safe: string -> bool, e: Expression)
    decreases e
  {
    match e
    case Literal(value, _) => value.Digits? ==> safe(value.text)
    case Input(_) => true
    case Array(elements, _) => forall k :: 0 <= k < |elements| ==> WellFormed(safe, elements[k])
    case Object(entries, _) =>
      && UniqueKeys(entries) && (entries != [] ==> entries[0].key != "}")
      && forall k :: 0 <= k < |entries| ==> WellFormed(safe, entries[k].value)
    case Unary(operator, operand, _) => operator in SIGNS && WellFormed(safe, operand)
    case Binary(operator, left, right, _) => Precedence(operator) > 0 && WellFormed(safe, left) && WellFormed(safe, right)
    case Conditional(c, t, f, offset) => offset == c.offset && WellFormed(safe, c) && WellFormed(safe, t) && WellFormed(safe, f)
  }

  // ---------- Writing a tree down ----------

  function LevelOf(e: Expression): nat {
    if e.Conditional? then 0 else if e.Binary? then Precedence(e.operator) else if e.Unary? then 7 else 8
  }

  function Mark(value: string): Token { Token(Punctuation, value, 0) }

  function Parens(tokens: seq<Token>): seq<Token> { [Mark("(")] + tokens + [Mark(")")] }

  /** The tokens of e where an expression of at least this level is wanted: parentheses only when needed. */
  function Render(variable: string, e: Expression, level: nat): (r: seq<Token>)
    ensures |r| > 0
    decreases e, 2, 0
  {
    if LevelOf(e) < level then Parens(Body(variable, e)) else Body(variable, e)
  }

  function Body(variable: string, e: Expression): (r: seq<Token>)
    ensures |r| > 0
    decreases e, 1, 0
  {
    match e
    case Literal(Text(s), o) => [Token(String, s, o)]
    case Literal(Digits(text), o) => [Token(Number, text, o)]
    case Literal(Boolean(b), o) => [Token(Identifier, if b then "true" else "false", o)]
    case Literal(NullValue, o) => [Token(Identifier, "null", o)]
    case Input(o) => [Token(Identifier, variable, o)]
    case Array(_, o) => [Token(Punctuation, "[", o)] + ElementsFrom(variable, e, 0) + [Mark("]")]
    case Object(_, o) => [Token(Punctuation, "{", o)] + EntriesFrom(variable, e, 0) + [Mark("}")]
    case Unary(operator, operand, o) => [Token(Operator, operator, o)] + Render(variable, operand, 7)
    case Binary(operator, left, right, o) =>
      Render(variable, left, Precedence(operator)) + [Token(Operator, operator, o)] + Render(variable, right, Precedence(operator) + 1)
    case Conditional(c, t, f, _) =>
      Render(variable, c, 1) + [Mark("?")] + Render(variable, t, 0) + [Mark(":")] + Render(variable, f, 0)
  }

  /** A leading string literal "]" would be taken for the end of the array, and is put in parentheses. */
  function Guarded(tokens: seq<Token>): seq<Token>
    requires |tokens| > 0
  {
    if tokens[0].value == "]" then Parens(tokens) else tokens
  }

  function Separator(more: bool): seq<Token> { if more then [Mark(",")] else [] }

  function ElementsFrom(variable: string, e: Expression, k: nat): seq<Token>
    requires e.Array? && k <= |e.elements|
    decreases e, 0, |e.elements| - k
  {
    if k == |e.elements| then []
    else
      var one := Render(variable, e.elements[k], 0);
      (if k == 0 then Guarded(one) else one) + (Separator(k + 1 < |e.elements|) + ElementsFrom(variable, e, k + 1))
  }

  function EntriesFrom(variable: string, e: Expression, k: nat): seq<Token>
    requires e.Object? && k <= |e.entries|
    decreases e, 0, |e.entries| - k
  {
    if k == |e.entries| then []
    else
      [Token(String, e.entries[k].key, e.entries[k].offset), Mark(":")] + Render(variable, e.entries[k].value, 0)
      + (Separator(k + 1 < |e.entries|) + EntriesFrom(variable, e, k + 1))
  }

  // ---------- Parsing what was written ----------

  predicate At(tokens: seq<Token>, i: nat, part: seq<Token>) {
    i + |part| < |tokens| && tokens[i..i + |part|] == part
  }

  lemma AtSplit(tokens: seq<Token>, i: nat, a: seq<Token>, b: seq<Token>)
    requires At(tokens, i, a + b)
    ensures At(tokens, i, a) && At(tokens, i + |a|, b)
    ensures |a| > 0 ==> tokens[i] == a[0]
    ensures |b| > 0 ==> tokens[i + |a|] == b[0]
  {
    var part := tokens[i..i + |a| + |b|];
    assert part[..|a|] == a && part[|a|..] == b;
    assert tokens[i..i + |a|] == part[..|a|];
    assert tokens[i + |a|..i + |a| + |b|] == part[|a|..];
  }

  function ParseLevel(src: Source, level: nat, i: nat): Parsed
    requires Ready(src) && i < |src.tokens| && level <= 8
  {
    if level == 0 then ParseConditional(src, i)
    else if level <= 7 then ParseBinary(src, level, i)
    else ParsePrimary(src, i)
  }

  /** The token does not go on with an expression of this level. */
  predicate Stops(t: Token, level: nat) {
    && t.value != "(" && (level == 0 ==> t.value != "?")
    && forall l :: 1 <= l <= 6 && level <= l ==> !Operates(t, l)
  }

  predicate Sign(t: Token) { t.kind.Operator? && t.value in SIGNS }

  /** An expression parsed at one level is parsed at every level below, if the next token does not go on with it. */
  lemma {:induction false} Climb(src: Source, low: nat, high: nat, i: nat)
    requires Ready(src) && i < |src.tokens| && low <= high <= 8
    requires ParseLevel(src, high, i).Ok? && Stops(src.tokens[ParseLevel(src, high, i).value.1], low)
    requires high == 8 && low < 8 ==> !Sign(src.tokens[i])
    ensures ParseLevel(src, low, i) == ParseLevel(src, high, i)
    decreases high - low
  {
    if low < high {
      var (e, j) := ParseLevel(src, high, i).value;
      Climb(src, low + 1, high, i);
      if low == 7 {
        assert ParseBinary(src, 7, i) == ParseUnary(src, i) == ParsePrimary(src, i);
      } else if low > 0 {
        assert !Operates(src.tokens[j], low);
        assert ParseBinary(src, low + 1, i) == Ok((e, j));
        assert ParseRest(src, low, e, j) == Ok((e, j));
      }
    }
  }

  /** Parentheses around anything make a primary. */
  lemma ParensParse(src: Source, inner: seq<Token>, e: Expression, i: nat)
    requires Ready(src) && At(src.tokens, i, Parens(inner))
    requires ParseLevel(src, 0, i + 1) == Ok((e, i + 1 + |inner|))
    ensures ParseLevel(src, 8, i) == Ok((e, i + 2 + |inner|)) && !Sign(src.tokens[i])
  {
    AtSplit(src.tokens, i, [Mark("(")] + inner, [Mark(")")]);
    AtSplit(src.tokens, i, [Mark("(")], inner);
  }

  lemma LevelsAreApart(operator: string, a: nat, b: nat)
    requires 1 <= a <= 6 && 1 <= b <= 6 && operator in LEVELS[a] && operator in LEVELS[b]
    ensures a == b && operator !in {"(", "?"}
  {
  }

  lemma MarkStops(value: string, level: nat)
    requires value in {")", "]", "}", ",", ":"} || (value == "?" && level > 0)
    ensures Stops(Mark(value), level)
  {
  }

  // One step of each parsing function, when its parts are known.

  lemma ConditionalStep(src: Source, i: nat, c: Expression, t: Expression, f: Expression, j: nat, k: nat, l: nat)
    requires Ready(src) && i < |src.tokens| && j + 1 < |src.tokens| && k + 1 < |src.tokens|
    requires ParseBinary(src, 1, i) == Ok((c, j)) && src.tokens[j].value == "?"
    requires ParseConditional(src, j + 1) == Ok((t, k)) && src.tokens[k].value == ":"
    requires ParseConditional(src, k + 1) == Ok((f, l))
    ensures ParseConditional(src, i) == Ok((Conditional(c, t, f, c.offset), l))
  {
  }

  lemma RestStep(src: Source, level: nat, left: Expression, right: Expression, i: nat, j: nat)
    requires Ready(src) && i + 1 < |src.tokens| && j < |src.tokens| && 1 <= level <= 6
    requires Operates(src.tokens[i], level) && ParseBinary(src, level + 1, i + 1) == Ok((right, j))
    ensures ParseRest(src, level, left, i) == ParseRest(src, level, Binary(src.tokens[i].value, left, right, src.tokens[i].offset), j)
  {
  }

  lemma RestEnds(src: Source, level: nat, e: Expression, i: nat)
    requires Ready(src) && i < |src.tokens| && 1 <= level <= 6 && Stops(src.tokens[i], level)
    ensures ParseRest(src, level, e, i) == Ok((e, i))
  {
    assert !Operates(src.tokens[i], level);
  }

  lemma UnaryStep(src: Source, e: Expression, i: nat, j: nat)
    requires Ready(src) && i + 1 < |src.tokens| && Sign(src.tokens[i]) && ParseBinary(src, 7, i + 1) == Ok((e, j))
    ensures ParseBinary(src, 7, i) == Ok((Unary(src.tokens[i].value, e, src.tokens[i].offset), j))
  {
    assert ParseBinary(src, 7, i + 1) == ParseUnary(src, i + 1);
    assert ParseBinary(src, 7, i) == ParseUnary(src, i);
  }

  lemma LeafParses(src: Source, e: Expression, i: nat)
    requires Ready(src) && (e.Literal? || e.Input?) && WellFormed(src.safe, e)
      && At(src.tokens, i, Body(src.variable, e))
    requires src.tokens[i + 1].value != "("
    ensures |Body(src.variable, e)| == 1 && ParsePrimary(src, i) == Ok((e, i + 1)) && !Sign(src.tokens[i])
  {
    assert src.tokens[i] == Body(src.variable, e)[0];
  }

  lemma ElementsStep(src: Source, done: seq<Expression>, e: Expression, i: nat, j: nat)
    requires Ready(src) && i < |src.tokens| && j + 1 < |src.tokens| && ParseConditional(src, i) == Ok((e, j))
    ensures src.tokens[j].value == "," ==> ParseElements(src, done, i) == ParseElements(src, done + [e], j + 1)
    ensures src.tokens[j].value == "]" ==> ParseElements(src, done, i) == Ok((done + [e], j + 1))
  {
  }

  lemma EntriesStep(src: Source, done: seq<Entry>, e: Expression, i: nat, j: nat)
    requires Ready(src) && i + 2 < |src.tokens| && j + 1 < |src.tokens| && ParseConditional(src, i + 2) == Ok((e, j))
    requires src.tokens[i].kind.String? && !HasKey(done, src.tokens[i].value) && src.tokens[i + 1].value == ":"
    ensures var one := Entry(src.tokens[i].value, e, src.tokens[i].offset);
      && (src.tokens[j].value == "," ==> ParseEntries(src, done, i) == ParseEntries(src, done + [one], j + 1))
      && (src.tokens[j].value == "}" ==> ParseEntries(src, done, i) == Ok((done + [one], j + 1)))
  {
  }

  lemma BodyIs(variable: string, e: Expression)
    ensures e.Conditional? ==>
      Body(variable, e) ==
      Render(variable, e.condition, 1) + [Mark("?")] + Render(variable, e.whenTrue, 0) + [Mark(":")] + Render(variable, e.whenFalse, 0)
    ensures e.Binary? ==>
      Body(variable, e) ==
      Render(variable, e.left, Precedence(e.operator)) + [Token(Operator, e.operator, e.offset)] + Render(variable, e.right, Precedence(e.operator) + 1)
    ensures e.Unary? ==> Body(variable, e) == [Token(Operator, e.operator, e.offset)] + Render(variable, e.operand, 7)
    ensures e.Array? ==>
      Body(variable, e) == [Token(Punctuation, "[", e.offset)] + (ElementsFrom(variable, e, 0) + [Mark("]")])
    ensures e.Object? ==>
      Body(variable, e) == [Token(Punctuation, "{", e.offset)] + (EntriesFrom(variable, e, 0) + [Mark("}")])
  {
  }

  /** What is written for a level is parsed back at that level, wherever it stands. */
  lemma {:induction false} Written(src: Source, e: Expression, level: nat, i: nat)
    requires Ready(src) && WellFormed(src.safe, e) && level <= 8 && At(src.tokens, i, Render(src.variable, e, level))
    requires Stops(src.tokens[i + |Render(src.variable, e, level)|], level)
    ensures ParseLevel(src, level, i) == Ok((e, i + |Render(src.variable, e, level)|))
    decreases e, 3, 0
  {
    hide WellFormed, Body, Render, Stops, At, Parens, ParseConditional, ParseBinary, ParsePrimary, ParseRest,
         ParseUnary;
    RenderIs(src.variable, e, level);
    var body := Body(src.variable, e);
    if LevelOf(e) < level {
      ParensSplit(src, body, i);
      MarkStops(")", 0);
      StopsAbove(Mark(")"), 0, LevelOf(e));
      BodyParses(src, e, i + 1);
      Climb(src, 0, LevelOf(e), i + 1);
      ParensParse(src, body, e, i);
      Climb(src, level, 8, i);
    } else {
      IsWithin(src, i, body);
      StopsAbove(src.tokens[i + |body|], level, LevelOf(e));
      BodyParses(src, e, i);
      Climb(src, level, LevelOf(e), i);
    }
  }

  lemma RenderIs(variable: string, e: Expression, level: nat)
    ensures Render(variable, e, level) == if LevelOf(e) < level then Parens(Body(variable, e)) else Body(variable, e)
  {
  }

  lemma ParensSplit(src: Source, inner: seq<Token>, i: nat)
    requires At(src.tokens, i, Parens(inner))
    ensures |Parens(inner)| == |inner| + 2 && i + |inner| + 2 < |src.tokens|
    ensures At(src.tokens, i + 1, inner) && src.tokens[i + 1 + |inner|] == Mark(")")
  {
    AtSplit(src.tokens, i, [Mark("(")] + inner, [Mark(")")]);
    AtSplit(src.tokens, i, [Mark("(")], inner);
  }

  lemma StopsAbove(t: Token, low: nat, high: nat)
    requires Stops(t, low) && low <= high
    ensures Stops(t, high)
  {
  }

  lemma {:induction false} BodyParses(src: Source, e: Expression, i: nat)
    requires Ready(src) && WellFormed(src.safe, e) && At(src.tokens, i, Body(src.variable, e))
    requires Stops(src.tokens[i + |Body(src.variable, e)|], LevelOf(e))
    ensures LevelOf(e) <= 8 && ParseLevel(src, LevelOf(e), i) == Ok((e, i + |Body(src.variable, e)|))
    ensures LevelOf(e) == 8 ==> !Sign(src.tokens[i])
    decreases e, 2, 0
  {
    hide Body, At, Stops, ParseConditional, ParseRest, ParseBinary, ParsePrimary, ParseUnary;
    var v := src.variable;
    match e
    case Literal(_, _) => BodyHasOne(src, e, i); LeafParses(src, e, i);
    case Input(_) => BodyHasOne(src, e, i); LeafParses(src, e, i);
    case Array(_, _) => ArrayParses(src, e, i);
    case Object(_, _) => ObjectParses(src, e, i);
    case Unary(operator, operand, o) =>
      BodyIs(v, e);
      AtSplit(src.tokens, i, [Token(Operator, operator, o)], Render(v, operand, 7));
      IsWithin(src, i + 1, Render(v, operand, 7));
      Written(src, operand, 7, i + 1);
      UnaryStep(src, operand, i, i + |Body(v, e)|);
    case Binary(operator, _, _, _) =>
      IsWithin(src, i, Body(v, e));
      StopsAbove(src.tokens[i + |Body(v, e)|], Precedence(operator), Precedence(operator) + 1);
      LeftSpine(src, e, Precedence(operator), i);
      RestEnds(src, Precedence(operator), e, i + |Body(v, e)|);
    case Conditional(_, _, _, _) => ConditionalParses(src, e, i);
  }

  lemma BodyHasOne(src: Source, e: Expression, i: nat)
    requires (e.Literal? || e.Input?) && At(src.tokens, i, Body(src.variable, e))
    requires Stops(src.tokens[i + |Body(src.variable, e)|], 8)
    ensures |Body(src.variable, e)| == 1 && i + 1 < |src.tokens| && src.tokens[i + 1].value != "("
  {
  }

  lemma ConditionalSplit(src: Source, e: Expression, i: nat, j: nat, k: nat)
    requires e.Conditional? && At(src.tokens, i, Body(src.variable, e))
    requires j == i + |Render(src.variable, e.condition, 1)| && k == j + 1 + |Render(src.variable, e.whenTrue, 0)|
    ensures At(src.tokens, i, Render(src.variable, e.condition, 1))
      && At(src.tokens, j + 1, Render(src.variable, e.whenTrue, 0))
    ensures At(src.tokens, k + 1, Render(src.variable, e.whenFalse, 0))
    ensures src.tokens[j] == Mark("?") && src.tokens[k] == Mark(":")
    ensures i + |Body(src.variable, e)| == k + 1 + |Render(src.variable, e.whenFalse, 0)|
  {
    hide Render, Body, At;
    BodyIs(src.variable, e);
    var v, tokens := src.variable, src.tokens;
    var c, t, f := Render(v, e.condition, 1), Render(v, e.whenTrue, 0), Render(v, e.whenFalse, 0);
    AtSplit(tokens, i, c + [Mark("?")] + t + [Mark(":")], f);
    AtSplit(tokens, i, c + [Mark("?")] + t, [Mark(":")]);
    AtSplit(tokens, i, c + [Mark("?")], t);
    AtSplit(tokens, i, c, [Mark("?")]);
  }

  lemma {:induction false} ConditionalParses(src: Source, e: Expression, i: nat)
    requires Ready(src) && e.Conditional? && WellFormed(src.safe, e) && At(src.tokens, i, Body(src.variable, e))
    requires Stops(src.tokens[i + |Body(src.variable, e)|], 0)
    ensures ParseConditional(src, i) == Ok((e, i + |Body(src.variable, e)|))
    decreases e, 1, 0
  {
    hide Render, Body, ParseConditional, ParseBinary, ParseUnary, ParsePrimary, ParseRest, Stops, At;
    MarkStops("?", 1);
    MarkStops(":", 0);
    var j := i + |Render(src.variable, e.condition, 1)|;
    var k := j + 1 + |Render(src.variable, e.whenTrue, 0)|;
    var l := k + 1 + |Render(src.variable, e.whenFalse, 0)|;
    ConditionalSplit(src, e, i, j, k);
    IsWithin(src, k + 1, Render(src.variable, e.whenFalse, 0));
    Written(src, e.condition, 1, i);
    Written(src, e.whenTrue, 0, j + 1);
    Written(src, e.whenFalse, 0, k + 1);
    ConditionalStep(src, i, e.condition, e.whenTrue, e.whenFalse, j, k, l);
  }

  lemma IsWithin(src: Source, i: nat, part: seq<Token>)
    requires At(src.tokens, i, part)
    ensures i + |part| < |src.tokens|
  {
  }

  lemma BinarySplit(src: Source, e: Expression, i: nat, m: nat)
    requires e.Binary? && At(src.tokens, i, Body(src.variable, e))
      && m == i + |Render(src.variable, e.left, Precedence(e.operator))|
    ensures At(src.tokens, i, Render(src.variable, e.left, Precedence(e.operator)))
    ensures At(src.tokens, m + 1, Render(src.variable, e.right, Precedence(e.operator) + 1))
    ensures src.tokens[m] == Token(Operator, e.operator, e.offset)
    ensures i + |Body(src.variable, e)| == m + 1 + |Render(src.variable, e.right, Precedence(e.operator) + 1)|
  {
    hide Render, Body, At;
    BodyIs(src.variable, e);
    var left, right := Render(src.variable, e.left, Precedence(e.operator)), Render(src.variable, e.right, Precedence(e.operator) + 1);
    var op := Token(Operator, e.operator, e.offset);
    AtSplit(src.tokens, i, left + [op], right);
    AtSplit(src.tokens, i, left, [op]);
  }

  /** An operator goes on with its own level, and with no higher one. */
  lemma OperatorStops(op: Token, level: nat)
    requires 1 <= level <= 6 && op.kind.Operator? && op.value in LEVELS[level]
    ensures Operates(op, level) && Stops(op, level + 1)
  {
    LevelsAreApart(op.value, level, level);
    forall l | 1 <= l <= 6 && level + 1 <= l
      ensures !Operates(op, l)
    {
      if op.value in LEVELS[l] { LevelsAreApart(op.value, level, l); }
    }
  }

  /** A left operand at its own level: the parser is then about to look for the next operator of that level. */
  lemma {:induction false} LeftSpine(src: Source, e: Expression, level: nat, i: nat)
    requires Ready(src) && WellFormed(src.safe, e) && 1 <= level <= 6
      && At(src.tokens, i, Render(src.variable, e, level))
    requires Stops(src.tokens[i + |Render(src.variable, e, level)|], level + 1)
    ensures ParseBinary(src, level, i) == ParseRest(src, level, e, i + |Render(src.variable, e, level)|)
    decreases e, if LevelOf(e) == level then 1 else 4, 0
  {
    hide Body, ParseUnary, ParsePrimary, ParseConditional, ParseRest, At, Stops, Operates;
    var v, tokens := src.variable, src.tokens;
    if LevelOf(e) == level {
      var m := i + |Render(v, e.left, level)|;
      var n := m + 1 + |Render(v, e.right, level + 1)|;
      BinarySplit(src, e, i, m);
      IsWithin(src, m + 1, Render(v, e.right, level + 1));
      OperatorStops(tokens[m], level);
      LeftSpine(src, e.left, level, i);
      Written(src, e.right, level + 1, m + 1);
      RestStep(src, level, e.left, e.right, m, n);
    } else {
      assert Render(v, e, level) == Render(v, e, level + 1);
      Written(src, e, level + 1, i);
    }
  }

  /** An array element or any expression after which no operator can come. */
  lemma {:induction false} GuardedParses(src: Source, e: Expression, i: nat)
    requires Ready(src) && WellFormed(src.safe, e)
    requires At(src.tokens, i, Guarded(Render(src.variable, e, 0)))
    requires Stops(src.tokens[i + |Guarded(Render(src.variable, e, 0))|], 0)
    ensures ParseConditional(src, i) == Ok((e, i + |Guarded(Render(src.variable, e, 0))|))
    ensures src.tokens[i].value != "]"
    decreases e, 4, 0
  {
    hide WellFormed, Render;
    var one := Render(src.variable, e, 0);
    assert src.tokens[i..i + |Guarded(one)|][0] == Guarded(one)[0];
    if one[0].value == "]" {
      AtSplit(src.tokens, i, [Mark("(")] + one, [Mark(")")]);
      AtSplit(src.tokens, i, [Mark("(")], one);
      Written(src, e, 0, i + 1);
      ParensParse(src, one, e, i);
      Climb(src, 0, 8, i);
    } else {
      Written(src, e, 0, i);
    }
  }

  function Element(variable: string, e: Expression, k: nat): seq<Token>
    requires e.Array? && k < |e.elements|
  {
    if k == 0 then Guarded(Render(variable, e.elements[k], 0)) else Render(variable, e.elements[k], 0)
  }

  lemma ElementsFromIs(variable: string, e: Expression, k: nat)
    requires e.Array? && k < |e.elements|
    ensures ElementsFrom(variable, e, k) == Element(variable, e, k) + (Separator(k + 1 < |e.elements|) + ElementsFrom(variable, e, k + 1))
    ensures ElementsFrom(variable, e, |e.elements|) == []
  {
  }

  lemma Regroup(a: seq<Token>, b: seq<Token>, c: seq<Token>, d: seq<Token>)
    ensures a + (b + c) + d == a + (b + (c + d))
  {
  }

  lemma ElementsSplit(src: Source, e: Expression, k: nat, i: nat, j: nat)
    requires e.Array? && k < |e.elements| && At(src.tokens, i, ElementsFrom(src.variable, e, k) + [Mark("]")])
    requires j == i + |Element(src.variable, e, k)|
    ensures At(src.tokens, i, Element(src.variable, e, k)) && j + 1 < |src.tokens|
    ensures k + 1 < |e.elements| ==>
      src.tokens[j] == Mark(",") && At(src.tokens, j + 1, ElementsFrom(src.variable, e, k + 1) + [Mark("]")])
    ensures k + 1 == |e.elements| ==> src.tokens[j] == Mark("]")
    ensures i + |ElementsFrom(src.variable, e, k)| == if k + 1 < |e.elements| then j + 1 + |ElementsFrom(src.variable, e, k + 1)| else j
  {
    hide Render, Guarded, At, ElementsFrom, Element;
    ElementsFromIs(src.variable, e, k);
    var first, more, rest := Element(src.variable, e, k), k + 1 < |e.elements|, ElementsFrom(src.variable, e, k + 1);
    Regroup(first, Separator(more), rest, [Mark("]")]);
    AtSplit(src.tokens, i, first, Separator(more) + (rest + [Mark("]")]));
    AtSplit(src.tokens, i + |first|, Separator(more), rest + [Mark("]")]);
    IsWithin(src, i + |first| + |Separator(more)|, rest + [Mark("]")]);
  }

  lemma {:induction false} ElementsParse(src: Source, e: Expression, k: nat, i: nat)
    requires Ready(src) && e.Array? && WellFormed(src.safe, e) && k < |e.elements|
    requires At(src.tokens, i, ElementsFrom(src.variable, e, k) + [Mark("]")])
    ensures ParseElements(src, e.elements[..k], i) == Ok((e.elements, i + |ElementsFrom(src.variable, e, k)| + 1))
    ensures k == 0 ==> src.tokens[i].value != "]"
    decreases e, 0, |e.elements| - k
  {
    hide Render, Body, ElementsFrom, ParseConditional, ParseBinary, ParsePrimary, ParseUnary, ParseRest, ParseElements,
         Stops, At, Guarded;
    MarkStops(",", 0);
    MarkStops("]", 0);
    var j := i + |Element(src.variable, e, k)|;
    ElementsSplit(src, e, k, i, j);
    if k == 0 { GuardedParses(src, e.elements[0], i); } else { Written(src, e.elements[k], 0, i); }
    ElementsStep(src, e.elements[..k], e.elements[k], i, j);
    assert e.elements[..k] + [e.elements[k]] == e.elements[..k + 1];
    if k + 1 < |e.elements| {
      ElementsParse(src, e, k + 1, j + 1);
    } else {
      assert e.elements[..k + 1] == e.elements;
    }
  }

  lemma {:induction false} ArrayParses(src: Source, e: Expression, i: nat)
    requires Ready(src) && e.Array? && WellFormed(src.safe, e) && At(src.tokens, i, Body(src.variable, e))
    ensures ParsePrimary(src, i) == Ok((e, i + |Body(src.variable, e)|)) && !Sign(src.tokens[i])
    decreases e, 1, 0
  {
    hide Body, Render, ParseConditional, ParseBinary, ParseUnary, ParseRest, At;
    BodyIs(src.variable, e);
    var open := [Token(Punctuation, "[", e.offset)];
    var rest := ElementsFrom(src.variable, e, 0) + [Mark("]")];
    assert Body(src.variable, e) == open + rest;
    AtSplit(src.tokens, i, open, rest);
    if e.elements != [] {
      ElementsParse(src, e, 0, i + 1);
      assert e.elements[..0] == [];
    }
  }

  lemma EntriesSplit(src: Source, e: Expression, k: nat, i: nat, j: nat)
    requires e.Object? && k < |e.entries| && At(src.tokens, i, EntriesFrom(src.variable, e, k) + [Mark("}")])
    requires j == i + 2 + |Render(src.variable, e.entries[k].value, 0)|
    ensures At(src.tokens, i + 2, Render(src.variable, e.entries[k].value, 0)) && j + 1 < |src.tokens|
    ensures src.tokens[i] == Token(String, e.entries[k].key, e.entries[k].offset) && src.tokens[i + 1] == Mark(":")
    ensures k + 1 < |e.entries| ==>
      src.tokens[j] == Mark(",") && At(src.tokens, j + 1, EntriesFrom(src.variable, e, k + 1) + [Mark("}")])
    ensures k + 1 == |e.entries| ==> src.tokens[j] == Mark("}")
    ensures i + |EntriesFrom(src.variable, e, k)| == if k + 1 < |e.entries| then j + 1 + |EntriesFrom(src.variable, e, k + 1)| else j
  {
    hide Render, At, EntriesFrom;
    var x, more, rest := e.entries[k], k + 1 < |e.entries|, EntriesFrom(src.variable, e, k + 1);
    var one := EntryTokens(x, Render(src.variable, x.value, 0));
    EntriesFromIs(src.variable, e, k);
    Regroup(one, Separator(more), rest, [Mark("}")]);
    AtSplit(src.tokens, i, one, Separator(more) + (rest + [Mark("}")]));
    EntryTokensSplit(src.tokens, i, x, Render(src.variable, x.value, 0));
    AtSplit(src.tokens, i + |one|, Separator(more), rest + [Mark("}")]);
    IsWithin(src, i + |one| + |Separator(more)|, rest + [Mark("}")]);
  }

  function EntryTokens(x: Entry, value: seq<Token>): (r: seq<Token>)
    ensures |r| == 2 + |value|
  {
    [Token(String, x.key, x.offset), Mark(":")] + value
  }

  lemma EntriesFromIs(variable: string, e: Expression, k: nat)
    requires e.Object? && k < |e.entries|
    ensures EntriesFrom(variable, e, k) ==
      EntryTokens(e.entries[k], Render(variable, e.entries[k].value, 0)) + (Separator(k + 1 < |e.entries|) + EntriesFrom(variable, e, k + 1))
    ensures EntriesFrom(variable, e, |e.entries|) == []
  {
  }

  lemma EntryTokensSplit(tokens: seq<Token>, i: nat, x: Entry, value: seq<Token>)
    requires At(tokens, i, EntryTokens(x, value))
    ensures tokens[i] == Token(String, x.key, x.offset) && tokens[i + 1] == Mark(":") && At(tokens, i + 2, value)
  {
    AtSplit(tokens, i, [Token(String, x.key, x.offset), Mark(":")], value);
    assert tokens[i..i + 2][1] == tokens[i + 1];
  }

  lemma {:induction false} EntriesParse(src: Source, e: Expression, k: nat, i: nat)
    requires Ready(src) && e.Object? && WellFormed(src.safe, e) && k < |e.entries|
    requires At(src.tokens, i, EntriesFrom(src.variable, e, k) + [Mark("}")])
    ensures ParseEntries(src, e.entries[..k], i) == Ok((e.entries, i + |EntriesFrom(src.variable, e, k)| + 1))
    ensures src.tokens[i].value == e.entries[k].key
    decreases e, 0, |e.entries| - k
  {
    hide Render, Body, EntriesFrom, ParseConditional, ParseBinary, ParsePrimary, ParseUnary, ParseRest, ParseEntries,
         Stops, At;
    MarkStops(",", 0);
    MarkStops("}", 0);
    var x := e.entries[k];
    var j := i + 2 + |Render(src.variable, x.value, 0)|;
    EntriesSplit(src, e, k, i, j);
    Written(src, x.value, 0, i + 2);
    assert e.entries[..k] + [x] == e.entries[..k + 1];
    assert !HasKey(e.entries[..k], x.key);
    EntriesStep(src, e.entries[..k], x.value, i, j);
    if k + 1 < |e.entries| {
      EntriesParse(src, e, k + 1, j + 1);
    } else {
      assert e.entries[..k + 1] == e.entries;
    }
  }

  lemma {:induction false} ObjectParses(src: Source, e: Expression, i: nat)
    requires Ready(src) && e.Object? && WellFormed(src.safe, e) && At(src.tokens, i, Body(src.variable, e))
    ensures ParsePrimary(src, i) == Ok((e, i + |Body(src.variable, e)|)) && !Sign(src.tokens[i])
    decreases e, 1, 0
  {
    hide Body, Render, ParseConditional, ParseBinary, ParseUnary, ParseRest, At;
    BodyIs(src.variable, e);
    var open := [Token(Punctuation, "{", e.offset)];
    var rest := EntriesFrom(src.variable, e, 0) + [Mark("}")];
    assert Body(src.variable, e) == open + rest;
    AtSplit(src.tokens, i, open, rest);
    if e.entries != [] {
      EntriesParse(src, e, 0, i + 1);
      assert e.entries[..0] == [];
    }
  }

  // ---------- Main results ----------

  predicate NoEof(tokens: seq<Token>) {
    forall t :: t in tokens ==> !t.kind.Eof?
  }

  lemma {:induction false} RenderHasNoEof(variable: string, e: Expression, level: nat)
    ensures NoEof(Body(variable, e)) && NoEof(Render(variable, e, level))
    decreases e, 1, 0
  {
    hide Render;
    RenderIs(variable, e, level);
    match e {
      case Literal(_, _) =>
      case Input(_) =>
      case Array(_, _) => ListHasNoEof(variable, e, 0);
      case Object(_, _) => ListHasNoEof(variable, e, 0);
      case Unary(_, operand, _) => RenderHasNoEof(variable, operand, 7);
      case Binary(operator, left, right, _) =>
        RenderHasNoEof(variable, left, Precedence(operator));
        RenderHasNoEof(variable, right, Precedence(operator) + 1);
      case Conditional(c, t, f, _) =>
        RenderHasNoEof(variable, c, 1);
        RenderHasNoEof(variable, t, 0);
        RenderHasNoEof(variable, f, 0);
    }
  }

  lemma {:induction false} ListHasNoEof(variable: string, e: Expression, k: nat)
    requires (e.Array? && k <= |e.elements|) || (e.Object? && k <= |e.entries|)
    ensures e.Array? ==> NoEof(ElementsFrom(variable, e, k))
    ensures e.Object? ==> NoEof(EntriesFrom(variable, e, k))
    decreases e, 0, if e.Array? then |e.elements| - k else if e.Object? then |e.entries| - k else 0
  {
    hide Render;
    if e.Array? && k < |e.elements| {
      RenderHasNoEof(variable, e.elements[k], 0);
      ListHasNoEof(variable, e, k + 1);
    } else if e.Object? && k < |e.entries| {
      RenderHasNoEof(variable, e.entries[k].value, 0);
      ListHasNoEof(variable, e, k + 1);
    }
  }

  function Closed(tokens: seq<Token>, end: nat): seq<Token> { tokens + [Token(Eof, "", end)] }

  /** Round trip: every well-formed tree, written with the parentheses that precedence and left associativity
      call for, is parsed back as itself. */
  lemma RoundTrip(e: Expression, variable: string, safe: string -> bool, end: nat)
    requires WellFormed(safe, e) && variable !in {"true", "false", "null"}
    ensures var src := Source(Closed(Render(variable, e, 0), end), variable, safe);
      Ready(src) && ParseAll(src) == Ok(e)
  {
    hide Render, WellFormed, ParseConditional;
    var r := Render(variable, e, 0);
    RenderHasNoEof(variable, e, 0);
    var src := Source(Closed(r, end), variable, safe);
    assert forall i :: 0 <= i < |r| ==> src.tokens[i] == r[i] && r[i] in r;
    assert src.tokens[0..0 + |r|] == r;
    Written(src, e, 0, 0);
  }

  // How tightly operators bind.

  /** The levels of the grammar, the loosest first. */
  function Rank(operator: string): nat {
    if operator == "||" then 1
    else if operator == "&&" then 2
    else if operator == "==" || operator == "!=" then 3
    else if operator == "<" || operator == "<=" || operator == ">" || operator == ">=" then 4
    else if operator == "+" || operator == "-" then 5
    else if operator == "*" || operator == "/" || operator == "%" then 6
    else 0
  }

  lemma RankIsPrecedence(operator: string)
    ensures Precedence(operator) == Rank(operator)
  {
  }

  predicate Leaf(safe: string -> bool, e: Expression) { (e.Literal? || e.Input?) && WellFormed(safe, e) }

  lemma LeafIs(variable: string, safe: string -> bool, e: Expression, level: nat)
    requires Leaf(safe, e) && level <= 8
    ensures Render(variable, e, level) == Body(variable, e)
  {
  }

  /** An operator between two leaves, and between an operation that binds tighter and a leaf. */
  lemma WrittenOf(variable: string, safe: string -> bool, p: string, x: Expression, y: Expression, o: nat)
    requires Leaf(safe, x) && Leaf(safe, y)
    ensures Body(variable, Binary(p, x, y, o)) == Body(variable, x) + [Token(Operator, p, o)] + Body(variable, y)
  {
    hide Leaf;
    BodyIs(variable, Binary(p, x, y, o));
    LeafIs(variable, safe, x, Precedence(p));
    LeafIs(variable, safe, y, Precedence(p) + 1);
  }

  lemma WrittenAround(variable: string, safe: string -> bool, p: string, x: Expression, y: Expression, o: nat)
    requires Leaf(safe, x) || LevelOf(x) >= Precedence(p)
    requires Leaf(safe, y) || LevelOf(y) > Precedence(p)
    ensures Render(variable, Binary(p, x, y, o), 0) == Body(variable, x) + [Token(Operator, p, o)] + Body(variable, y)
  {
    hide Body;
    var e := Binary(p, x, y, o);
    RenderIs(variable, e, 0);
    BodyIs(variable, e);
    RenderIs(variable, x, Precedence(p));
    RenderIs(variable, y, Precedence(p) + 1);
  }

  /** Of two operators without parentheses the one of higher rank binds its operands, and of two of the same rank the
      first one; a sign binds tighter than both, and a condition is whatever stands before the question mark. */
  lemma OperatorsBindByRank(p: string, q: string, x: Expression, y: Expression, z: Expression, sign: string, o: nat,
          variable: string, safe: string -> bool)
    requires Rank(p) > 0 && Rank(q) > 0 && sign in {"!", "-", "+"} && variable !in {"true", "false", "null"}
    requires Leaf(safe, x) && Leaf(safe, y) && Leaf(safe, z)
    ensures
      var first, second := [Token(Operator, p, o)], [Token(Operator, q, o)];
      && Parses(Body(variable, x) + first + Body(variable, y) + second + Body(variable, z), variable, safe,
                if Rank(p) < Rank(q) then Binary(p, x, Binary(q, y, z, o), o) else Binary(q, Binary(p, x, y, o), z, o))
      && Parses([Token(Operator, sign, o)] + Body(variable, x) + first + Body(variable, y), variable, safe,
                Binary(p, Unary(sign, x, o), y, o))
      && Parses(Body(variable, x) + first + Body(variable, y) + [Mark("?")] + Body(variable, y) + [Mark(":")] + Body(variable, z),
                variable, safe, Conditional(Binary(p, x, y, o), y, z, o))
  {
    hide WellFormed, Body, Render, ParseAll, Precedence, Leaf, Rank, LEVELS;
    TwoOperators(p, q, x, y, z, o, variable, safe);
    SignAndOperator(p, x, y, sign, o, variable, safe);
    Condition(p, x, y, z, o, variable, safe);
  }

  /** These tokens and the eof are parsed to this tree. */
  predicate Parses(tokens: seq<Token>, variable: string, safe: string -> bool, e: Expression) {
    var src := Source(Closed(tokens, 0), variable, safe);
    Ready(src) && ParseAll(src) == Ok(e)
  }

  lemma TwoOperators(p: string, q: string, x: Expression, y: Expression, z: Expression, o: nat, variable: string,
          safe: string -> bool)
    requires Rank(p) > 0 && Rank(q) > 0 && variable !in {"true", "false", "null"}
    requires Leaf(safe, x) && Leaf(safe, y) && Leaf(safe, z)
    ensures
      Parses(Body(variable, x) + [Token(Operator, p, o)] + Body(variable, y) + [Token(Operator, q, o)] + Body(variable, z),
             variable, safe,
             if Rank(p) < Rank(q) then Binary(p, x, Binary(q, y, z, o), o) else Binary(q, Binary(p, x, y, o), z, o))
  {
    hide ParseAll, Ready, Rank, Precedence, LEVELS, Body, Render;
    RankIsPrecedence(p);
    RankIsPrecedence(q);
    var a, b, c := Body(variable, x), Body(variable, y), Body(variable, z);
    var first, second := [Token(Operator, p, o)], [Token(Operator, q, o)];
    if Rank(p) < Rank(q) {
      var inner := Binary(q, y, z, o);
      WrittenOf(variable, safe, q, y, z, o);
      WrittenAround(variable, safe, p, x, inner, o);
      assert a + first + (b + second + c) == a + first + b + second + c;
      RoundTrip(Binary(p, x, inner, o), variable, safe, 0);
    } else {
      var inner := Binary(p, x, y, o);
      WrittenOf(variable, safe, p, x, y, o);
      WrittenAround(variable, safe, q, inner, z, o);
      RoundTrip(Binary(q, inner, z, o), variable, safe, 0);
    }
  }

  lemma SignAndOperator(p: string, x: Expression, y: Expression, sign: string, o: nat, variable: string,
          safe: string -> bool)
    requires Rank(p) > 0 && sign in {"!", "-", "+"} && variable !in {"true", "false", "null"} && Leaf(safe, x) && Leaf(safe, y)
    ensures Parses([Token(Operator, sign, o)] + Body(variable, x) + [Token(Operator, p, o)] + Body(variable, y), variable, safe,
                   Binary(p, Unary(sign, x, o), y, o))
  {
    hide ParseAll, Ready, Rank, Precedence, LEVELS, Body, Render;
    RankIsPrecedence(p);
    var signed := Unary(sign, x, o);
    BodyIs(variable, signed);
    LeafIs(variable, safe, x, 7);
    WrittenAround(variable, safe, p, signed, y, o);
    RoundTrip(Binary(p, signed, y, o), variable, safe, 0);
  }

  lemma Condition(p: string, x: Expression, y: Expression, z: Expression, o: nat, variable: string, safe: string -> bool)
    requires Rank(p) > 0 && variable !in {"true", "false", "null"} && Leaf(safe, x) && Leaf(safe, y) && Leaf(safe, z)
    ensures Parses(Body(variable, x) + [Token(Operator, p, o)] + Body(variable, y) + [Mark("?")] + Body(variable, y) + [Mark(":")]
                   + Body(variable, z), variable, safe, Conditional(Binary(p, x, y, o), y, z, o))
  {
    hide ParseAll, Ready, Rank, Precedence, LEVELS, Body, Render;
    RankIsPrecedence(p);
    var e := Conditional(Binary(p, x, y, o), y, z, o);
    RenderIs(variable, e, 0);
    BodyIs(variable, e);
    RenderIs(variable, e.condition, 1);
    WrittenOf(variable, safe, p, x, y, o);
    LeafIs(variable, safe, y, 0);
    LeafIs(variable, safe, z, 0);
    RoundTrip(Conditional(Binary(p, x, y, o), y, z, o), variable, safe, 0);
  }

  // Whatever the parser returns is well formed.

  lemma {:induction false} ConditionalIsWellFormed(src: Source, i: nat)
    requires Ready(src) && i < |src.tokens| && ParseConditional(src, i).Ok?
    ensures WellFormed(src.safe, ParseConditional(src, i).value.0)
    decreases |src.tokens| - i, 10
  {
    var c := ParseBinary(src, 1, i).value;
    BinaryIsWellFormed(src, 1, i);
    if src.tokens[c.1].value == "?" {
      ConditionalIsWellFormed(src, c.1 + 1);
      ConditionalIsWellFormed(src, ParseConditional(src, c.1 + 1).value.1 + 1);
    }
  }

  lemma {:induction false} BinaryIsWellFormed(src: Source, level: nat, i: nat)
    requires Ready(src) && i < |src.tokens| && 1 <= level <= 7 && ParseBinary(src, level, i).Ok?
    ensures WellFormed(src.safe, ParseBinary(src, level, i).value.0)
    decreases |src.tokens| - i, 9 - level
  {
    if level == 7 {
      UnaryIsWellFormed(src, i);
    } else {
      BinaryIsWellFormed(src, level + 1, i);
      var first := ParseBinary(src, level + 1, i).value;
      RestIsWellFormed(src, level, first.0, first.1);
    }
  }

  lemma {:induction false} RestIsWellFormed(src: Source, level: nat, left: Expression, i: nat)
    requires Ready(src) && i < |src.tokens| && 1 <= level <= 6 && WellFormed(src.safe, left)
      && ParseRest(src, level, left, i).Ok?
    ensures WellFormed(src.safe, ParseRest(src, level, left, i).value.0)
    decreases |src.tokens| - i, 0
  {
    var t := src.tokens[i];
    if Operates(t, level) {
      BinaryIsWellFormed(src, level + 1, i + 1);
      var right := ParseBinary(src, level + 1, i + 1).value;
      RestIsWellFormed(src, level, Binary(t.value, left, right.0, t.offset), right.1);
    }
  }

  lemma {:induction false} UnaryIsWellFormed(src: Source, i: nat)
    requires Ready(src) && i < |src.tokens| && ParseUnary(src, i).Ok?
    ensures WellFormed(src.safe, ParseUnary(src, i).value.0)
    decreases |src.tokens| - i, 1
  {
    if Sign(src.tokens[i]) { UnaryIsWellFormed(src, i + 1); } else { PrimaryIsWellFormed(src, i); }
  }

  lemma {:induction false} PrimaryIsWellFormed(src: Source, i: nat)
    requires Ready(src) && i < |src.tokens| && ParsePrimary(src, i).Ok?
    ensures WellFormed(src.safe, ParsePrimary(src, i).value.0)
    decreases |src.tokens| - i, 0
  {
    var t := src.tokens[i];
    if !t.kind.Number? && !t.kind.String? && !t.kind.Identifier? {
      if t.value == "(" {
        ConditionalIsWellFormed(src, i + 1);
      } else if t.value == "[" && src.tokens[i + 1].value != "]" {
        ElementsAreWellFormed(src, [], i + 1);
      } else if t.value == "{" && src.tokens[i + 1].value != "}" {
        EntriesAreWellFormed(src, [], i + 1);
      }
    }
  }

  lemma {:induction false} ElementsAreWellFormed(src: Source, done: seq<Expression>, i: nat)
    requires Ready(src) && i < |src.tokens| && ParseElements(src, done, i).Ok?
    requires forall k :: 0 <= k < |done| ==> WellFormed(src.safe, done[k])
    ensures var l := ParseElements(src, done, i).value.0; forall k :: 0 <= k < |l| ==> WellFormed(src.safe, l[k])
    decreases |src.tokens| - i, 11
  {
    ConditionalIsWellFormed(src, i);
    var e := ParseConditional(src, i).value;
    if src.tokens[e.1].value == "," {
      ElementsAreWellFormed(src, done + [e.0], e.1 + 1);
    }
  }

  lemma {:induction false} EntriesAreWellFormed(src: Source, done: seq<Entry>, i: nat)
    requires Ready(src) && i < |src.tokens| && ParseEntries(src, done, i).Ok?
    requires UniqueKeys(done) && forall k :: 0 <= k < |done| ==> WellFormed(src.safe, done[k].value)
    ensures var l := ParseEntries(src, done, i).value.0;
      UniqueKeys(l) && l != [] && l[0].key == (if done == [] then src.tokens[i].value else done[0].key)
      && forall k :: 0 <= k < |l| ==> WellFormed(src.safe, l[k].value)
    decreases |src.tokens| - i, 11
  {
    var key := src.tokens[i];
    ConditionalIsWellFormed(src, i + 2);
    var v := ParseConditional(src, i + 2).value;
    assert forall k :: 0 <= k < |done| ==> done[k].key != key.value;
    if src.tokens[v.1].value == "," {
      EntriesAreWellFormed(src, done + [Entry(key.value, v.0, key.offset)], v.1 + 1);
    }
  }

  /** The trees some token list is parsed to are exactly the well-formed ones. */
  lemma ParserTreesAreTheWellFormedOnes(e: Expression, variable: string, safe: string -> bool)
    requires variable !in {"true", "false", "null"}
    ensures WellFormed(safe, e) <==> exists tokens :: Ready(Source(tokens, variable, safe)) && ParseAll(Source(tokens, variable, safe)) == Ok(e)
  {
    hide WellFormed, ParseConditional, Render;
    if WellFormed(safe, e) {
      RoundTrip(e, variable, safe, 0);
      assert ParseAll(Source(Closed(Render(variable, e, 0), 0), variable, safe)) == Ok(e);
    }
    if tokens :| Ready(Source(tokens, variable, safe)) && ParseAll(Source(tokens, variable, safe)) == Ok(e) {
      ConditionalIsWellFormed(Source(tokens, variable, safe), 0);
    }
  }

  /** Why an array's leading "]" needs parentheses, and a first key "}" cannot be had: consume and expect look at a
      token's text only, and take the string for the bracket. */
  lemma TextIsTakenForABracket(variable: string, safe: string -> bool)
    requires variable !in {"true", "false", "null"}
    ensures var list := Source([Mark("["), Token(String, "]", 1), Mark("]"), Token(Eof, "", 3)], variable, safe);
      Ready(list) && ParseAll(list) == Err(Error(Unexpected("]"), 0))
    ensures var record := Source([Mark("{"), Token(String, "}", 1), Mark(":"), Token(String, "x", 3), Mark("}"), Token(Eof, "", 5)], variable, safe);
      Ready(record) && ParseAll(record) == Err(Error(Unexpected(":"), 0))
  {
    var list := Source([Mark("["), Token(String, "]", 1), Mark("]"), Token(Eof, "", 3)], variable, safe);
    assert ParseLevel(list, 8, 0) == Ok((Array([], 0), 2));
    Climb(list, 0, 8, 0);
    var record := Source([Mark("{"), Token(String, "}", 1), Mark(":"), Token(String, "x", 3), Mark("}"), Token(Eof, "", 5)], variable, safe);
    assert ParseLevel(record, 8, 0) == Ok((Object([], 0), 2));
    Climb(record, 0, 8, 0);
  }
}
