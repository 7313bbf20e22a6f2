/** Expressions as text: what is written from tokens is cut into those tokens again, and what is written from a tree is
    analysed to that tree, offsets apart. */
module CelText {
  import opened Wrappers
  import opened CelParsing
  import opened CelTokens
  import opened CelLexicon

  // ---------- Text from tokens ----------

  function Spelling(t: Token): string {
    if t.kind.String? then "\"" + Escape('"', t.value) + "\"" else t.value
  }

  /** The tokens one after the other, with blanks between them. */
  function TextOf(tokens: seq<Token>): string {
    if tokens == [] then "" else if |tokens| == 1 then Spelling(tokens[0])
    else Spelling(tokens[0]) + " " + TextOf(tokens[1..])
  }

  /** The token can be written as it is. */
  ghost predicate Legible(t: Token) {
    match t.kind
    case Number => NumberLiteral(t.value)
    case Identifier => Name(t.value)
    case Operator => t.value in {"&&", "||", "==", "!=", "<=", ">=", "+", "-", "*", "/", "%", "!", "<", ">"}
    case Punctuation => t.value in {"{", "}", "[", "]", "(", ")", ",", ":", "?", "."}
    case String => true
    case Eof => false
  }

  /** A blank is white space, and nothing a token begins with is. */
  ghost predicate FairAlphabet(alphabet: Alphabet) {
    && alphabet.isSpace(' ')
    && (forall c {:trigger alphabet.isSpace(c)} :: PartOfName(c) || c in "'\"+-*/%!<>=&|{}[](),:?." ==> !alphabet.isSpace(c))
  }

  /** The tokens where they stand in the text, and the eof. */
  function Placed(tokens: seq<Token>, i: nat): (r: seq<Lexeme>)
    ensures |r| == |tokens| + 1
    ensures forall k :: 0 <= k < |tokens| ==> r[k].token.kind == tokens[k].kind && r[k].token.value == tokens[k].value
    ensures r[|tokens|].token.kind == Eof && r[|tokens|].token.value == ""
    decreases |tokens|
  {
    if tokens == [] then [Lexeme(Token(Eof, "", i), i)]
    else
      var end := i + |Spelling(tokens[0])|;
      [Lexeme(Token(tokens[0].kind, tokens[0].value, i), end)] + Placed(tokens[1..], if |tokens| == 1 then end else end + 1)
  }

  /** The text stands in the source, and a blank or the end of the source follows. */
  predicate WrittenAt(source: string, i: nat, text: string) {
    && i + |text| <= |source| && source[i..i + |text|] == text
    && (i + |text| < |source| ==> source[i + |text|] == ' ')
  }

  lemma NoBlankInside(s: string)
    requires NumberLiteral(s)
    ensures s != "" && PartOfName(s[0]) && forall k :: 0 <= k < |s| ==> s[k] != ' '
  {
    var a: nat, b: nat :| Parted(s, a, b);
    assert s[..a] == s[0..a] && s[b..] == s[b..|s|];
    PartsIn(s, 0, a, b, |s|);
    PartsHaveNone(s, a, b);
  }

  lemma PartsHaveNone(s: string, a: nat, b: nat)
    requires IntegerIn(s, 0, a) && FractionIn(s, a, b) && ExponentIn(s, b, |s|)
    ensures IsDigit(s[0]) && forall k :: 0 <= k < |s| ==> s[k] != ' '
  {
    forall k | 0 <= k < |s|
      ensures s[k] != ' '
    {
      if a < k < b || b + 1 < k {
        assert IsDigit(s[k]);
      }
    }
  }

  /** A legible token, followed by a blank or the end, is the token at its place. */
  lemma WrittenIsToken(alphabet: Alphabet, source: string, i: nat, t: Token)
    requires Legible(t) && WrittenAt(source, i, Spelling(t))
    ensures i < |source| && IsToken(alphabet, source, Lexeme(Token(t.kind, t.value, i), i + |Spelling(t)|))
    ensures PartOfName(source[i]) || source[i] in "'\"+-*/%!<>=&|{}[](),:?."
  {
    hide Spells, StringFrom, NumberLiteral, Escape;
    var end := i + |Spelling(t)|;
    assert Spelling(t) != "" ==> source[i] == Spelling(t)[0];
    match t.kind
    case Number =>
      NoBlankInside(t.value);
      forall k | end < k <= |source|
        ensures !NumberLiteral(source[i..k])
      {
        assert source[i..k][end - i] == ' ';
        if NumberLiteral(source[i..k]) {
          NoBlankInside(source[i..k]);
        }
      }
    case Identifier =>
      forall k | end < k <= |source|
        ensures !Name(source[i..k])
      {
        assert source[i..k][end - i] == ' ';
      }
    case Operator => OperatorIsWritten(alphabet, source, i, t);
    case Punctuation =>
    case String => StringIsWritten(alphabet, source, i, t);
  }

  lemma OperatorIsWritten(alphabet: Alphabet, source: string, i: nat, t: Token)
    requires Legible(t) && t.kind.Operator? && WrittenAt(source, i, t.value)
    ensures i < |source| && IsToken(alphabet, source, Lexeme(Token(t.kind, t.value, i), i + |t.value|))
    ensures source[i] in "'\"+-*/%!<>=&|{}[](),:?."
  {
    assert source[i] == t.value[0];
    if i + 2 <= |source| && |t.value| == 1 {
      assert source[i..i + 2][1] == ' ';
    }
  }

  lemma StringIsWritten(alphabet: Alphabet, source: string, i: nat, t: Token)
    requires t.kind.String? && WrittenAt(source, i, Spelling(t))
    ensures i < |source| && IsToken(alphabet, source, Lexeme(Token(String, t.value, i), i + |Spelling(t)|)) && source[i] == '"'
  {
    hide Escape, StringFrom, IsToken;
    var inner := Escape('"', t.value) + "\"";
    assert Spelling(t) == "\"" + inner;
    assert source[i] == source[i..i + |Spelling(t)|][0];
    assert source[i + 1..i + 1 + |inner|] == source[i..i + |Spelling(t)|][1..] == inner;
    assert ['"'] == "\"";
    QuotedReadsBack(alphabet, source, i, '"', i + 1, "", t.value);
    assert "" + t.value == t.value;
    TokenIs(alphabet, source, i);
  }

  lemma BlankFirst(alphabet: Alphabet, source: string, i: nat, tokens: seq<Lexeme>)
    requires i < |source| && alphabet.isSpace(source[i]) && ReadsAs(alphabet, source, i + 1, tokens)
    ensures ReadsAs(alphabet, source, i, tokens)
  {
    hide IsToken;
  }

  lemma LegibleIsNoEof(t: Token)
    requires Legible(t)
    ensures !t.kind.Eof?
  {
  }

  lemma {:induction false} WrittenIsRead(alphabet: Alphabet, source: string, i: nat, tokens: seq<Token>)
    requires FairAlphabet(alphabet) && (forall k :: 0 <= k < |tokens| ==> Legible(tokens[k]))
    requires i <= |source| && source[i..] == TextOf(tokens)
    ensures ReadsAs(alphabet, source, i, Placed(tokens, i))
    decreases |tokens|
  {
    hide IsToken, Legible, Spelling, FairAlphabet, ReadsAs, PartOfName, Placed, TextOf, WrittenAt;
    WritingIs(tokens, i);
    if tokens != [] {
      var t, rest := tokens[0], TextOf(tokens[1..]);
      var end := i + |Spelling(t)|;
      Pieces(source, i, Spelling(t), rest, |tokens| == 1);
      WrittenIsToken(alphabet, source, i, t);
      FairnessIs(alphabet, source[i]);
      LegibleIsNoEof(t);
      if |tokens| == 1 {
        OnlyEof(alphabet, source);
        WritingIs([], end);
        TokenThenRest(alphabet, source, i, Lexeme(Token(t.kind, t.value, i), end), Placed([], end));
      } else {
        WrittenIsRead(alphabet, source, end + 1, tokens[1..]);
        BlankFirst(alphabet, source, end, Placed(tokens[1..], end + 1));
        TokenThenRest(alphabet, source, i, Lexeme(Token(t.kind, t.value, i), end), Placed(tokens[1..], end + 1));
      }
    } else {
      assert |source[i..]| == 0;
      OnlyEof(alphabet, source);
    }
  }

  lemma WritingIs(tokens: seq<Token>, i: nat)
    ensures tokens == [] ==> TextOf(tokens) == "" && Placed(tokens, i) == [Lexeme(Token(Eof, "", i), i)]
    ensures tokens != [] ==>
      var t, last := tokens[0], |tokens| == 1;
      var end := i + |Spelling(t)|;
      && TextOf(tokens) == (if last then Spelling(t) else Spelling(t) + " " + TextOf(tokens[1..]))
      && Placed(tokens, i)
      == [Lexeme(Token(t.kind, t.value, i), end)] + Placed(if last then [] else tokens[1..], if last then end else end + 1)
  {
    hide Spelling;
    if |tokens| == 1 {
      assert tokens[1..] == [];
    }
  }

  lemma Pieces(source: string, i: nat, head: string, rest: string, last: bool)
    requires i <= |source| && source[i..] == if last then head else head + " " + rest
    ensures WrittenAt(source, i, head)
    ensures if last then i + |head| == |source| else i + |head| < |source| && source[i + |head| + 1..] == rest
  {
    var all := source[i..];
    assert all == (if last then head else head + (" " + rest)) && all[..|head|] == head;
    if !last {
      assert all[|head|] == ' ' && all[|head| + 1..] == rest;
    }
  }

  lemma FairnessIs(alphabet: Alphabet, c: char)
    requires FairAlphabet(alphabet)
    ensures alphabet.isSpace(' ') && (PartOfName(c) || c in "'\"+-*/%!<>=&|{}[](),:?." ==> !alphabet.isSpace(c))
  {
  }

  lemma TokenThenRest(alphabet: Alphabet, source: string, i: nat, t: Lexeme, rest: seq<Lexeme>)
    requires t.token.offset == i < |source| && !t.token.kind.Eof? && !alphabet.isSpace(source[i])
    requires IsToken(alphabet, source, t) && ReadsAs(alphabet, source, t.end, rest)
    ensures ReadsAs(alphabet, source, i, [t] + rest)
  {
    hide IsToken;
    assert ([t] + rest)[1..] == rest;
  }

  lemma OnlyEof(alphabet: Alphabet, source: string)
    ensures ReadsAs(alphabet, source, |source|, [Lexeme(Token(Eof, "", |source|), |source|)])
  {
  }

  /** A source written from tokens, with blanks between them, is cut into exactly those tokens. */
  lemma WrittenTokensAreReadBack(alphabet: Alphabet, tokens: seq<Token>)
    requires FairAlphabet(alphabet) && (forall k :: 0 <= k < |tokens| ==> Legible(tokens[k]))
    ensures TokensFrom(alphabet, TextOf(tokens), 0, []) == Ok(Placed(tokens, 0))
  {
    assert TextOf(tokens)[0..] == TextOf(tokens);
    WrittenIsRead(alphabet, TextOf(tokens), 0, tokens);
    TokensAreWhatIsRead(alphabet, TextOf(tokens), 0, Placed(tokens, 0));
  }
}
