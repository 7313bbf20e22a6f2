/** The parser does not look at offsets; so text written from a tree is analysed to that tree again, offsets apart. */
module CelRoundTrip {
  import opened Wrappers
  import opened CelParsing
  import opened CelTokens
  import opened CelLexicon
  import opened CelText
  import opened CelCompiler

  // ---------- Without offsets ----------

  /** The tree with every offset 0. */
  function Flat(e: Expression): Expression
    decreases e
  {
    match e
    case Literal(value, _) => Literal(value, 0)
    case Input(_) => Input(0)
    case Array(elements, _) => Array(seq(|elements|, k requires 0 <= k < |elements| => Flat(elements[k])), 0)
    case Object(entries, _) =>
      Object(seq(|entries|, k requires 0 <= k < |entries| => Entry(entries[k].key, Flat(entries[k].value), 0)), 0)
    case Unary(operator, operand, _) => Unary(operator, Flat(operand), 0)
    case Binary(operator, left, right, _) => Binary(operator, Flat(left), Flat(right), 0)
    case Conditional(c, t, f, _) => Conditional(Flat(c), Flat(t), Flat(f), 0)
  }

  function FlatAll(elements: seq<Expression>): seq<Expression> {
    seq(|elements|, k requires 0 <= k < |elements| => Flat(elements[k]))
  }

  function FlatEntries(entries: seq<Entry>): seq<Entry> {
    seq(|entries|, k requires 0 <= k < |entries| => Entry(entries[k].key, Flat(entries[k].value), 0))
  }

  function FlatTokens(tokens: seq<Token>): (r: seq<Token>)
    ensures |r| == |tokens| && forall k :: 0 <= k < |r| ==> r[k] == tokens[k].(offset := 0)
  {
    seq(|tokens|, k requires 0 <= k < |tokens| => tokens[k].(offset := 0))
  }

  function FlatSource(src: Source): Source { src.(tokens := FlatTokens(src.tokens)) }

  function FlatParsed(r: Parsed): Parsed {
    match r
    case Ok((e, j)) => Ok((Flat(e), j))
    case Err(error) => Err(error.(offset := 0))
  }

  lemma FlatIsReady(src: Source)
    requires Ready(src)
    ensures Ready(FlatSource(src))
  {
  }

  lemma FlatGrows(elements: seq<Expression>, e: Expression, entries: seq<Entry>, x: Entry)
    ensures FlatAll(elements + [e]) == FlatAll(elements) + [Flat(e)]
    ensures FlatEntries(entries + [x]) == FlatEntries(entries) + [Entry(x.key, Flat(x.value), 0)]
  {
  }

  lemma FlatLists(elements: seq<Expression>, entries: seq<Entry>, o: nat)
    ensures Flat(Array(elements, o)) == Array(FlatAll(elements), 0)
    ensures Flat(Object(entries, o)) == Object(FlatEntries(entries), 0)
    ensures FlatAll([]) == [] && FlatEntries([]) == []
  {
  }

  lemma FlatKeys(entries: seq<Entry>, key: string)
    ensures HasKey(FlatEntries(entries), key) <==> HasKey(entries, key)
  {
    if HasKey(entries, key) {
      var k :| 0 <= k < |entries| && entries[k].key == key;
      assert FlatEntries(entries)[k].key == key;
    }
  }

  // ---------- The parser does not look at offsets ----------

  /** One step of the parser for a conditional. */
  lemma ConditionalIs(src: Source, i: nat)
    requires Ready(src) && i < |src.tokens|
    ensures var c := ParseBinary(src, 1, i);
      if c.Err? || src.tokens[c.value.1].value != "?" then ParseConditional(src, i) == c
      else
        && c.value.1 + 1 < |src.tokens|
        && var t := ParseConditional(src, c.value.1 + 1);
          if t.Err? then ParseConditional(src, i) == t
          else if src.tokens[t.value.1].value != ":" then
            ParseConditional(src, i) == Err(Error(Expected(":"), src.tokens[t.value.1].offset))
          else
            && t.value.1 + 1 < |src.tokens|
            && var f := ParseConditional(src, t.value.1 + 1);
              ParseConditional(src, i)
              == if f.Err? then f else Ok((Conditional(c.value.0, t.value.0, f.value.0, c.value.0.offset), f.value.1))
  {
    hide ParseBinary;
  }

  lemma {:induction false} FlatConditional(src: Source, i: nat)
    requires Ready(src) && i < |src.tokens|
    ensures Ready(FlatSource(src)) && ParseConditional(FlatSource(src), i) == FlatParsed(ParseConditional(src, i))
    decreases |src.tokens| - i, 10
  {
    hide ParseBinary, ParseConditional, Ready;
    FlatIsReady(src);
    FlatBinary(src, 1, i);
    ConditionalIs(src, i);
    ConditionalIs(FlatSource(src), i);
    var c := ParseBinary(src, 1, i);
    if c.Ok? && src.tokens[c.value.1].value == "?" {
      FlatConditional(src, c.value.1 + 1);
      var t := ParseConditional(src, c.value.1 + 1);
      if t.Ok? && src.tokens[t.value.1].value == ":" {
        FlatConditional(src, t.value.1 + 1);
      }
    }
  }

  lemma NotTheLast(src: Source, i: nat)
    requires Ready(src) && i < |src.tokens| && src.tokens[i].value != ""
    ensures i + 1 < |src.tokens|
  {
  }

  lemma {:induction false} FlatBinary(src: Source, level: nat, i: nat)
    requires Ready(src) && i < |src.tokens| && 1 <= level <= 7
    ensures Ready(FlatSource(src)) && ParseBinary(FlatSource(src), level, i) == FlatParsed(ParseBinary(src, level, i))
    decreases |src.tokens| - i, 9 - level
  {
    hide ParseUnary, ParseRest, Ready;
    FlatIsReady(src);
    if level == 7 {
      FlatUnary(src, i);
    } else {
      FlatBinary(src, level + 1, i);
      var first := ParseBinary(src, level + 1, i);
      if first.Ok? {
        FlatRest(src, level, first.value.0, first.value.1);
      }
    }
  }

  lemma {:induction false} FlatRest(src: Source, level: nat, left: Expression, i: nat)
    requires Ready(src) && i < |src.tokens| && 1 <= level <= 6
    ensures Ready(FlatSource(src)) && ParseRest(FlatSource(src), level, Flat(left), i) == FlatParsed(ParseRest(src, level, left, i))
    decreases |src.tokens| - i, 0
  {
    hide ParseBinary, Ready;
    FlatIsReady(src);
    var t := src.tokens[i];
    if Operates(t, level) {
      OperatorIsNotLast(src, i);
      FlatBinary(src, level + 1, i + 1);
      var right := ParseBinary(src, level + 1, i + 1);
      if right.Ok? {
        FlatRest(src, level, Binary(t.value, left, right.value.0, t.offset), right.value.1);
      }
    }
  }

  lemma OperatorIsNotLast(src: Source, i: nat)
    requires Ready(src) && i < |src.tokens| && !src.tokens[i].kind.Eof?
    ensures i + 1 < |src.tokens|
  {
  }

  lemma {:induction false} FlatUnary(src: Source, i: nat)
    requires Ready(src) && i < |src.tokens|
    ensures Ready(FlatSource(src)) && ParseUnary(FlatSource(src), i) == FlatParsed(ParseUnary(src, i))
    decreases |src.tokens| - i, 1
  {
    hide ParsePrimary, Ready;
    FlatIsReady(src);
    var t := src.tokens[i];
    if t.kind.Operator? && t.value in SIGNS {
      OperatorIsNotLast(src, i);
      FlatUnary(src, i + 1);
    } else {
      FlatPrimary(src, i);
    }
  }

  lemma {:induction false} FlatPrimary(src: Source, i: nat)
    requires Ready(src) && i < |src.tokens|
    ensures Ready(FlatSource(src)) && ParsePrimary(FlatSource(src), i) == FlatParsed(ParsePrimary(src, i))
    decreases |src.tokens| - i, 0
  {
    hide ParseConditional, ParseElements, ParseEntries, Ready;
    FlatIsReady(src);
    var t := src.tokens[i];
    if !t.kind.Eof? {
      OperatorIsNotLast(src, i);
      FlatLists([], [], t.offset);
      if t.kind.Number? || t.kind.String? || t.kind.Identifier? {
      } else if t.value == "(" {
        FlatConditional(src, i + 1);
      } else if t.value == "[" && src.tokens[i + 1].value != "]" {
        FlatElements(src, [], i + 1);
        var l := ParseElements(src, [], i + 1);
        if l.Ok? { FlatLists(l.value.0, [], t.offset); }
      } else if t.value == "{" && src.tokens[i + 1].value != "}" {
        FlatMembers(src, [], i + 1);
        var l := ParseEntries(src, [], i + 1);
        if l.Ok? { FlatLists([], l.value.0, t.offset); }
      }
    }
  }

  lemma {:induction false} FlatElements(src: Source, done: seq<Expression>, i: nat)
    requires Ready(src) && i < |src.tokens|
    ensures Ready(FlatSource(src))
    ensures match ParseElements(src, done, i)
      case Ok((l, j)) => ParseElements(FlatSource(src), FlatAll(done), i) == Ok((FlatAll(l), j))
      case Err(error) => ParseElements(FlatSource(src), FlatAll(done), i) == Err(error.(offset := 0))
    decreases |src.tokens| - i, 11
  {
    hide ParseConditional, Ready, FlatAll;
    FlatIsReady(src);
    FlatConditional(src, i);
    var e := ParseConditional(src, i);
    if e.Ok? {
      FlatGrows(done, e.value.0, [], Entry("", e.value.0, 0));
      if src.tokens[e.value.1].value == "," {
        NotTheLast(src, e.value.1);
        FlatElements(src, done + [e.value.0], e.value.1 + 1);
      }
    }
  }

  lemma {:induction false} FlatMembers(src: Source, done: seq<Entry>, i: nat)
    requires Ready(src) && i < |src.tokens|
    ensures Ready(FlatSource(src))
    ensures match ParseEntries(src, done, i)
      case Ok((l, j)) => ParseEntries(FlatSource(src), FlatEntries(done), i) == Ok((FlatEntries(l), j))
      case Err(error) => ParseEntries(FlatSource(src), FlatEntries(done), i) == Err(error.(offset := 0))
    decreases |src.tokens| - i, 11
  {
    hide ParseConditional, Ready, FlatEntries, HasKey;
    FlatIsReady(src);
    var key := src.tokens[i];
    FlatKeys(done, key.value);
    if key.kind.String? && !HasKey(done, key.value) {
      OperatorIsNotLast(src, i);
      if src.tokens[i + 1].value == ":" {
        NotTheLast(src, i + 1);
        FlatConditional(src, i + 2);
        var v := ParseConditional(src, i + 2);
        if v.Ok? {
          FlatGrows([], v.value.0, done, Entry(key.value, v.value.0, key.offset));
          if src.tokens[v.value.1].value == "," {
            NotTheLast(src, v.value.1);
            FlatMembers(src, done + [Entry(key.value, v.value.0, key.offset)], v.value.1 + 1);
          }
        }
      }
    }
  }

  /** Two sources of the same tokens, wherever they stand, are parsed to the same tree or the same complaint. */
  lemma OffsetsDoNotMatter(a: Source, b: Source)
    requires Ready(a) && Ready(b) && FlatSource(a) == FlatSource(b)
    ensures match ParseAll(a)
      case Ok(e) => ParseAll(b).Ok? && Flat(ParseAll(b).value) == Flat(e)
      case Err(error) => ParseAll(b).Err? && ParseAll(b).error.complaint == error.complaint
  {
    hide ParseConditional;
    FlatConditional(a, 0);
    FlatConditional(b, 0);
    var e := ParseConditional(a, 0);
    if e.Ok? {
      assert FlatSource(a).tokens[e.value.1] == FlatSource(b).tokens[e.value.1];
    }
  }

  // ---------- Text from trees ----------

  /** Every number in the tree is written as a number literal. */
  ghost predicate Writable(e: Expression)
    decreases e
  {
    match e
    case Literal(value, _) => value.Digits? ==> NumberLiteral(value.text)
    case Input(_) => true
    case Array(elements, _) => forall k :: 0 <= k < |elements| ==> Writable(elements[k])
    case Object(entries, _) => forall k :: 0 <= k < |entries| ==> Writable(entries[k].value)
    case Unary(_, operand, _) => Writable(operand)
    case Binary(_, left, right, _) => Writable(left) && Writable(right)
    case Conditional(c, t, f, _) => Writable(c) && Writable(t) && Writable(f)
  }

  ghost predicate AllLegible(tokens: seq<Token>) {
    forall t :: t in tokens ==> Legible(t)
  }

  lemma {:induction false} RenderIsLegible(variable: string, safe: string -> bool, e: Expression, level: nat)
    requires Name(variable) && WellFormed(safe, e) && Writable(e)
    ensures AllLegible(Body(variable, e)) && AllLegible(Render(variable, e, level))
    decreases e, 1, 0
  {
    hide Render, NumberLiteral, Name, Precedence;
    RenderIs(variable, e, level);
    match e {
      case Literal(_, _) => LeafIsLegible(variable, e);
      case Input(_) => LeafIsLegible(variable, e);
      case Array(_, _) => ListIsLegible(variable, safe, e, 0);
      case Object(_, _) => ListIsLegible(variable, safe, e, 0);
      case Unary(operator, operand, o) =>
        OperatorIsLegible(operator, o);
        RenderIsLegible(variable, safe, operand, 7);
      case Binary(operator, left, right, o) =>
        OperatorIsLegible(operator, o);
        RenderIsLegible(variable, safe, left, Precedence(operator));
        RenderIsLegible(variable, safe, right, Precedence(operator) + 1);
      case Conditional(c, t, f, _) =>
        RenderIsLegible(variable, safe, c, 1);
        RenderIsLegible(variable, safe, t, 0);
        RenderIsLegible(variable, safe, f, 0);
    }
  }

  lemma OperatorIsLegible(operator: string, offset: nat)
    requires operator in SIGNS || Precedence(operator) > 0
    ensures Legible(Token(Operator, operator, offset))
  {
  }

  lemma LeafIsLegible(variable: string, e: Expression)
    requires Name(variable) && (e.Literal? || e.Input?) && Writable(e)
    ensures AllLegible(Body(variable, e))
  {
    hide NumberLiteral;
    assert Name("true") && Name("false") && Name("null");
  }

  lemma {:induction false} ListIsLegible(variable: string, safe: string -> bool, e: Expression, k: nat)
    requires Name(variable) && WellFormed(safe, e) && Writable(e)
    requires (e.Array? && k <= |e.elements|) || (e.Object? && k <= |e.entries|)
    ensures e.Array? ==> AllLegible(ElementsFrom(variable, e, k))
    ensures e.Object? ==> AllLegible(EntriesFrom(variable, e, k))
    decreases e, 0, if e.Array? then |e.elements| - k else |e.entries| - k
  {
    hide Render, NumberLiteral, Name;
    if e.Array? && k < |e.elements| {
      RenderIsLegible(variable, safe, e.elements[k], 0);
      ListIsLegible(variable, safe, e, k + 1);
    } else if e.Object? && k < |e.entries| {
      RenderIsLegible(variable, safe, e.entries[k].value, 0);
      ListIsLegible(variable, safe, e, k + 1);
    }
  }

  lemma VariablesAreNames(variable: string)
    requires variable in VARIABLES
    ensures Name(variable) && variable !in {"true", "false", "null"}
  {
  }

  /** The text of a tree: its tokens with blanks between them. */
  function Written(variable: string, e: Expression): string { TextOf(Render(variable, e, 0)) }

  /** What the analysis makes of the text of a tree, for the variable the text is about: the tree. */
  lemma TreesAreReadBack(settings: Settings, variable: string, e: Expression)
    requires variable in VARIABLES && WellFormed(settings.safe, e) && Writable(e) && FairAlphabet(settings.alphabet)
    ensures var r := Analysed(settings, variable, Written(variable, e));
      r.Ok? && Flat(r.value) == Flat(e)
  {
    hide Render, WellFormed, Writable, ParseAll, Name, Flat, Legible, TokensFrom, FlatTokens, Placed, TextOf, Ready,
         FairAlphabet, Closed, Bare, ReadsAs, Covers;
    VariablesAreNames(variable);
    var tokens := Render(variable, e, 0);
    RenderIsLegible(variable, settings.safe, e, 0);
    assert forall k :: 0 <= k < |tokens| ==> tokens[k] in tokens;
    WrittenTokensAreReadBack(settings.alphabet, tokens);
    RoundTrip(e, variable, settings.safe, 0);
    TokensAreReady(settings.alphabet, TextOf(tokens), variable, settings.safe);
    var read := Source(Bare(Placed(tokens, 0)), variable, settings.safe);
    var written := Source(Closed(tokens, 0), variable, settings.safe);
    SameButForOffsets(tokens);
    OffsetsDoNotMatter(written, read);
  }

  lemma SameButForOffsets(tokens: seq<Token>)
    ensures FlatTokens(Bare(Placed(tokens, 0))) == FlatTokens(Closed(tokens, 0))
  {
    hide Placed;
  }

  // ---------- White space around the text ----------

  predicate Blank(alphabet: Alphabet, s: string) { forall k :: 0 <= k < |s| ==> alphabet.isSpace(s[k]) }

  lemma {:induction false} TrimStartIs(alphabet: Alphabet, lead: string, text: string)
    requires Blank(alphabet, lead) && (text != "" ==> !alphabet.isSpace(text[0]))
    ensures TrimStart(alphabet, lead + text) == text
  {
    if lead == "" {
      assert lead + text == text;
    } else {
      TrimStartIs(alphabet, lead[1..], text);
      assert (lead + text)[1..] == lead[1..] + text;
    }
  }

  /** Trimming takes away exactly the white space around a text. */
  lemma {:induction false} TrimIs(alphabet: Alphabet, lead: string, text: string, trail: string)
    requires Blank(alphabet, lead) && Blank(alphabet, trail)
    requires text != "" ==> !alphabet.isSpace(text[0]) && !alphabet.isSpace(text[|text| - 1])
    ensures Trim(alphabet, lead + text + trail) == text
    decreases |trail|
  {
    var s := lead + text + trail;
    if trail != "" {
      TrimIs(alphabet, lead, text, trail[..|trail| - 1]);
      assert s[..|s| - 1] == lead + text + trail[..|trail| - 1];
    } else if text == "" && lead != "" {
      assert s == lead && lead[|lead| - 1] == s[|s| - 1];
      AllBlank(alphabet, lead);
    } else {
      assert s == lead + text;
      TrimStartIs(alphabet, lead, text);
    }
  }

  lemma {:induction false} AllBlank(alphabet: Alphabet, s: string)
    requires Blank(alphabet, s)
    ensures Trim(alphabet, s) == ""
    decreases |s|
  {
    if s != "" {
      AllBlank(alphabet, s[..|s| - 1]);
    }
  }

  lemma {:induction false} EndsAreNoBlanks(alphabet: Alphabet, tokens: seq<Token>)
    requires FairAlphabet(alphabet) && tokens != [] && forall k :: 0 <= k < |tokens| ==> Legible(tokens[k])
    ensures var text := TextOf(tokens);
      text != "" && !alphabet.isSpace(text[0]) && !alphabet.isSpace(text[|text| - 1])
    decreases |tokens|
  {
    hide Legible, Spelling, FairAlphabet;
    EdgesOf(alphabet, tokens[0]);
    if |tokens| > 1 {
      EndsAreNoBlanks(alphabet, tokens[1..]);
    }
  }

  lemma EdgesOf(alphabet: Alphabet, t: Token)
    requires FairAlphabet(alphabet) && Legible(t)
    ensures var text := Spelling(t);
      text != "" && !alphabet.isSpace(text[0]) && !alphabet.isSpace(text[|text| - 1])
  {
    hide NumberLiteral;
    var text := Spelling(t);
    if t.kind.Number? {
      NumberEnds(text);
    }
    assert t.kind.Operator? ==> forall k :: 0 <= k < |text| ==> text[k] in "'\"+-*/%!<>=&|{}[](),:?.";
  }

  lemma NumberEnds(s: string)
    requires NumberLiteral(s)
    ensures s != "" && PartOfName(s[0]) && PartOfName(s[|s| - 1])
  {
    var a: nat, b: nat :| Parted(s, a, b);
    assert s[..a] == s[0..a] && s[b..] == s[b..|s|];
    PartsIn(s, 0, a, b, |s|);
    assert IsDigit(s[|s| - 1]);
  }

  /** Any well-formed tree, written for one of the variables with any white space around it, compiles for that variable
      to the text without that white space and to the tree, offsets apart. */
  lemma TreesCompile(settings: Settings, variable: string, e: Expression, lead: string, trail: string)
    requires variable in VARIABLES && WellFormed(settings.safe, e) && Writable(e) && FairAlphabet(settings.alphabet)
    requires Blank(settings.alphabet, lead) && Blank(settings.alphabet, trail)
    ensures var r := Compiled(settings, variable, lead + Written(variable, e) + trail);
      r.Ok? && r.value.source == Written(variable, e) && Flat(r.value.expression) == Flat(e)
  {
    hide Render, WellFormed, Writable, Analysed, Name, Flat, Legible, Trim, FairAlphabet;
    VariablesAreNames(variable);
    var tokens := Render(variable, e, 0);
    RenderIsLegible(variable, settings.safe, e, 0);
    assert forall k :: 0 <= k < |tokens| ==> tokens[k] in tokens;
    EndsAreNoBlanks(settings.alphabet, tokens);
    TrimIs(settings.alphabet, lead, Written(variable, e), trail);
    TreesAreReadBack(settings, variable, e);
  }
}
