/** The tokenizer of the restricted expression language. */
module CelTokens {
  import opened Wrappers
  import opened CelParsing

  /** A token and the position just past it in the source. */
  datatype Lexeme = Lexeme(token: Token, end: nat)

  datatype Fault =
    | UnsupportedToken(c: char) | UnterminatedString | UnterminatedEscape | InvalidUnicodeEscape | UnsupportedEscape(c: char)

  datatype LexError = LexError(fault: Fault, offset: nat)

  /** Which characters are white space to a regular expression, and the character of a code, are the
      language's own business. */
  datatype Alphabet = Alphabet(isSpace: char -> bool, fromCode: nat -> char)

  const DOUBLE_OPERATORS: set<string> := {"&&", "||", "==", "!=", "<=", ">="}
  const SINGLE_OPERATORS: set<string> := {"+", "-", "*", "/", "%", "!", "<", ">"}
  const PUNCTUATION: set<string> := {"{", "}", "[", "]", "(", ")", ",", ":", "?", "."}

  predicate IsDigit(c: char) { '0' <= c <= '9' }

  predicate IsLetter(c: char) { 'a' <= c <= 'z' || 'A' <= c <= 'Z' || c == '_' }

  predicate IsHex(c: char) { IsDigit(c) || 'a' <= c <= 'f' || 'A' <= c <= 'F' }

  function HexValue(c: char): nat
    requires IsHex(c)
  {
    if IsDigit(c) then (c - '0') as nat else if 'a' <= c <= 'f' then (c - 'a') as nat + 10 else (c - 'A') as nat + 10
  }

  /** The first position from i on where the character is not of the given kind. */
  function SkipWhile(source: string, i: nat, kind: char -> bool): (j: nat)
    requires i <= |source|
    ensures i <= j <= |source| && (forall k :: i <= k < j ==> kind(source[k])) && (j < |source| ==> !kind(source[j]))
    decreases |source| - i
  {
    if i < |source| && kind(source[i]) then SkipWhile(source, i + 1, kind) else i
  }

  // ---------- Numbers ----------

  function Digits(source: string, i: nat): nat
    requires i <= |source|
  {
    SkipWhile(source, i, IsDigit)
  }

  /** An optional part that needs at least one digit from position j on. */
  function WithDigits(source: string, i: nat, j: nat): (k: nat)
    requires i <= j <= |source|
    ensures i <= k <= |source|
  {
    if Digits(source, j) > j then Digits(source, j) else i
  }

  function AfterFraction(source: string, i: nat): (k: nat)
    requires i <= |source|
    ensures i <= k <= |source|
  {
    if i < |source| && source[i] == '.' then WithDigits(source, i, i + 1) else i
  }

  function AfterExponent(source: string, i: nat): (k: nat)
    requires i <= |source|
    ensures i <= k <= |source|
  {
    if i < |source| && (source[i] == 'e' || source[i] == 'E') then
      WithDigits(source, i, if i + 1 < |source| && (source[i + 1] == '+' || source[i + 1] == '-') then i + 2 else i + 1)
    else i
  }

  /** The longest number literal at i; a leading zero stands alone. */
  function NumberEnd(source: string, i: nat): (k: nat)
    requires i < |source| && IsDigit(source[i])
    ensures i < k <= |source|
  {
    AfterExponent(source, AfterFraction(source, if source[i] == '0' then i + 1 else Digits(source, i + 1)))
  }

  // ---------- Strings ----------

  function SimpleEscape(c: char): Option<char> {
    if c == '\'' || c == '"' || c == '\\' then Some(c)
    else if c == 'b' then Some('\U{0008}') else if c == 'f' then Some('\U{000C}') else if c == 'n' then Some('\n')
    else if c == 'r' then Some('\r') else if c == 't' then Some('\t') else None
  }

  /** The rest of a string literal that began at start, read from cursor on. */
  function StringFrom(alphabet: Alphabet, source: string, start: nat, quote: char, cursor: nat,
          value: string): (r: Result<Lexeme, LexError>)
    requires start < cursor <= |source|
    ensures r.Ok? ==> cursor < r.value.end <= |source| && r.value.token.kind.String? && r.value.token.offset == start
    ensures r.Ok? ==> source[r.value.end - 1] == quote
    decreases |source| - cursor
  {
    if cursor == |source| then Err(LexError(UnterminatedString, start))
    else
      var c := source[cursor];
      if c == quote then Ok(Lexeme(Token(String, value, start), cursor + 1))
      else if c == '\n' || c == '\r' then Err(LexError(UnterminatedString, start))
      else if c != '\\' then StringFrom(alphabet, source, start, quote, cursor + 1, value + [c])
      else if cursor + 1 == |source| then Err(LexError(UnterminatedEscape, cursor))
      else
        var escaped := source[cursor + 1];
        if SimpleEscape(escaped).Some? then StringFrom(alphabet, source, start, quote, cursor + 2, value + [SimpleEscape(escaped).value])
        else if escaped == 'u' then
          if cursor + 6 <= |source| && forall k :: cursor + 2 <= k < cursor + 6 ==> IsHex(source[k]) then
            StringFrom(alphabet, source, start, quote, cursor + 6, value + [alphabet.fromCode(FourHex(source[cursor + 2..cursor + 6]))])
          else Err(LexError(InvalidUnicodeEscape, cursor))
        else Err(LexError(UnsupportedEscape(escaped), cursor))
  }

  function FourHex(digits: string): nat
    requires |digits| == 4 && forall k :: 0 <= k < 4 ==> IsHex(digits[k])
  {
    ((HexValue(digits[0]) * 16 + HexValue(digits[1])) * 16 + HexValue(digits[2])) * 16 + HexValue(digits[3])
  }

  // ---------- Tokens ----------

  predicate NameChar(c: char) { IsLetter(c) || IsDigit(c) }

  /** The token that begins at i, where there is no white space. */
  function TokenAt(alphabet: Alphabet, source: string, i: nat): (r: Result<Lexeme, LexError>)
    requires i < |source|
    ensures r.Ok? ==> i < r.value.end <= |source| && r.value.token.offset == i && !r.value.token.kind.Eof?
    ensures r.Ok? && !r.value.token.kind.String? ==> r.value.token.value == source[i..r.value.end]
  {
    var c := source[i];
    if c == '\'' || c == '"' then StringFrom(alphabet, source, i, c, i + 1, "")
    else if IsDigit(c) then Ok(Lexeme(Token(Number, source[i..NumberEnd(source, i)], i), NumberEnd(source, i)))
    else if IsLetter(c) then
      var end := SkipWhile(source, i + 1, NameChar);
      Ok(Lexeme(Token(Identifier, source[i..end], i), end))
    else if i + 2 <= |source| && source[i..i + 2] in DOUBLE_OPERATORS then Ok(Lexeme(Token(Operator, source[i..i + 2], i), i + 2))
    else if source[i..i + 1] in SINGLE_OPERATORS then Ok(Lexeme(Token(Operator, source[i..i + 1], i), i + 1))
    else if source[i..i + 1] in PUNCTUATION then Ok(Lexeme(Token(Punctuation, source[i..i + 1], i), i + 1))
    else Err(LexError(UnsupportedToken(c), i))
  }

  function End(source: string): Lexeme { Lexeme(Token(Eof, "", |source|), |source|) }

  /** The tokens from position i on. */
  function TokensFrom(alphabet: Alphabet, source: string, i: nat, done: seq<Lexeme>): Result<seq<Lexeme>, LexError>
    requires i <= |source|
    decreases |source| - i
  {
    if i == |source| then Ok(done + [End(source)])
    else if alphabet.isSpace(source[i]) then TokensFrom(alphabet, source, i + 1, done)
    else
      var t := TokenAt(alphabet, source, i);
      if t.Err? then Err(t.error) else TokensFrom(alphabet, source, t.value.end, done + [t.value])
  }

  // ---------- The code ----------

  method ReadWhile(source: string, offset: nat, kind: char -> bool) returns (cursor: nat)
    requires offset <= |source|
    ensures cursor == SkipWhile(source, offset, kind)
  {
    cursor := offset;
    while cursor < |source| && kind(source[cursor])
      invariant offset <= cursor <= |source| && SkipWhile(source, offset, kind) == SkipWhile(source, cursor, kind)
    {
      cursor := cursor + 1;
    }
  }

  method ReadString(alphabet: Alphabet, source: string, offset: nat, quote: char) returns (r: Result<Lexeme, LexError>)
    requires offset < |source|
    ensures r == StringFrom(alphabet, source, offset, quote, offset + 1, "")
  {
    var cursor, value := offset + 1, "";
    while cursor < |source|
      invariant offset < cursor <= |source|
      invariant StringFrom(alphabet, source, offset, quote, offset + 1, "") == StringFrom(alphabet, source, offset, quote, cursor, value)
      decreases |source| - cursor
    {
      var c := source[cursor];
      if c == quote {
        return Ok(Lexeme(Token(String, value, offset), cursor + 1));
      }
      if c == '\n' || c == '\r' {
        return Err(LexError(UnterminatedString, offset));
      }
      if c != '\\' {
        value := value + [c];
        cursor := cursor + 1;
        continue;
      }
      var escapeOffset := cursor;
      if cursor + 1 == |source| {
        return Err(LexError(UnterminatedEscape, escapeOffset));
      }
      var escaped := source[cursor + 1];
      var simple := SimpleEscape(escaped);
      if simple.Some? {
        value := value + [simple.value];
        cursor := cursor + 2;
        continue;
      }
      if escaped == 'u' {
        if !(cursor + 6 <= |source| && forall k :: cursor + 2 <= k < cursor + 6 ==> IsHex(source[k])) {
          return Err(LexError(InvalidUnicodeEscape, escapeOffset));
        }
        value := value + [alphabet.fromCode(FourHex(source[cursor + 2..cursor + 6]))];
        cursor := cursor + 6;
        continue;
      }
      return Err(LexError(UnsupportedEscape(escaped), escapeOffset));
    }
    return Err(LexError(UnterminatedString, offset));
  }

  method TokenizeRestrictedCel(alphabet: Alphabet, source: string) returns (r: Result<seq<Lexeme>, LexError>)
    ensures r == TokensFrom(alphabet, source, 0, [])
  {
    var tokens: seq<Lexeme> := [];
    var offset := 0;
    while offset < |source|
      invariant offset <= |source|
      invariant TokensFrom(alphabet, source, 0, []) == TokensFrom(alphabet, source, offset, tokens)
    {
      var c := source[offset];
      if alphabet.isSpace(c) {
        offset := offset + 1;
        continue;
      }
      if c == '\'' || c == '"' {
        var token := ReadString(alphabet, source, offset, c);
        if token.Err? {
          return Err(token.error);
        }
        tokens := tokens + [token.value];
        offset := token.value.end;
        continue;
      }
      if IsDigit(c) {
        var end := NumberEnd(source, offset);
        tokens := tokens + [Lexeme(Token(Number, source[offset..end], offset), end)];
        offset := end;
        continue;
      }
      if IsLetter(c) {
        var end := ReadWhile(source, offset + 1, NameChar);
        tokens := tokens + [Lexeme(Token(Identifier, source[offset..end], offset), end)];
        offset := end;
        continue;
      }
      if offset + 2 <= |source| && source[offset..offset + 2] in DOUBLE_OPERATORS {
        tokens := tokens + [Lexeme(Token(Operator, source[offset..offset + 2], offset), offset + 2)];
        offset := offset + 2;
        continue;
      }
      var one := source[offset..offset + 1];
      if one in SINGLE_OPERATORS {
        tokens := tokens + [Lexeme(Token(Operator, one, offset), offset + 1)];
        offset := offset + 1;
        continue;
      }
      if one in PUNCTUATION {
        tokens := tokens + [Lexeme(Token(Punctuation, one, offset), offset + 1)];
        offset := offset + 1;
        continue;
      }
      return Err(LexError(UnsupportedToken(c), offset));
    }
    return Ok(tokens + [End(source)]);
  }

  // ---------- What tokens are ----------

  /** The tokens cover the source from position i on: each begins after white space only, is not empty and ends
      before the next begins; the one eof closes them. */
  ghost predicate Covers(alphabet: Alphabet, source: string, i: nat, tokens: seq<Lexeme>)
    decreases |tokens|
  {
    && tokens != [] && i <= |source|
    && var t := tokens[0];
      && i <= t.token.offset <= |source| && (forall k :: i <= k < t.token.offset ==> alphabet.isSpace(source[k]))
      && if t.token.kind.Eof? then tokens == [End(source)]
         else t.token.offset < t.end <= |source| && !alphabet.isSpace(source[t.token.offset])
              && (!t.token.kind.String? ==> t.token.value == source[t.token.offset..t.end])
              && Covers(alphabet, source, t.end, tokens[1..])
  }

  lemma {:induction false} SpaceBefore(alphabet: Alphabet, source: string, i: nat, tokens: seq<Lexeme>)
    requires i < |source| && alphabet.isSpace(source[i]) && Covers(alphabet, source, i + 1, tokens)
    ensures Covers(alphabet, source, i, tokens)
  {
  }

  /** What the tokenizer returns covers the source. */
  lemma {:induction false} TokensCover(alphabet: Alphabet, source: string, i: nat, done: seq<Lexeme>)
    requires i <= |source| && TokensFrom(alphabet, source, i, done).Ok?
    ensures var r := TokensFrom(alphabet, source, i, done).value;
      done <= r && Covers(alphabet, source, i, r[|done|..])
    decreases |source| - i
  {
    if i < |source| {
      if alphabet.isSpace(source[i]) {
        TokensCover(alphabet, source, i + 1, done);
        SpaceBefore(alphabet, source, i, TokensFrom(alphabet, source, i + 1, done).value[|done|..]);
      } else {
        var t := TokenAt(alphabet, source, i).value;
        TokensCover(alphabet, source, t.end, done + [t]);
        var r := TokensFrom(alphabet, source, t.end, done + [t]).value;
        assert r[|done|..][0] == r[|done|] == (done + [t])[|done|] && r[|done|..][1..] == r[|done + [t]|..];
      }
    }
  }

  function Bare(tokens: seq<Lexeme>): (s: seq<Token>)
    ensures |s| == |tokens| && forall i :: 0 <= i < |s| ==> s[i] == tokens[i].token
  {
    seq(|tokens|, i requires 0 <= i < |tokens| => tokens[i].token)
  }

  lemma {:induction false} OneEof(alphabet: Alphabet, source: string, i: nat, tokens: seq<Lexeme>)
    requires Covers(alphabet, source, i, tokens)
    ensures forall k :: 0 <= k < |tokens| ==> (tokens[k].token.kind.Eof? <==> k == |tokens| - 1)
    ensures tokens[|tokens| - 1] == End(source)
    decreases |tokens|
  {
    if !tokens[0].token.kind.Eof? {
      OneEof(alphabet, source, tokens[0].end, tokens[1..]);
      assert forall k :: 1 <= k < |tokens| ==> tokens[k] == tokens[1..][k - 1];
    }
  }

  /** The parser can start on whatever the tokenizer returns. */
  lemma TokensAreReady(alphabet: Alphabet, source: string, variable: string, safe: string -> bool)
    requires TokensFrom(alphabet, source, 0, []).Ok? && variable !in {"true", "false", "null"}
    ensures Covers(alphabet, source, 0, TokensFrom(alphabet, source, 0, []).value)
    ensures Ready(Source(Bare(TokensFrom(alphabet, source, 0, []).value), variable, safe))
  {
    TokensCover(alphabet, source, 0, []);
    var tokens := TokensFrom(alphabet, source, 0, []).value;
    assert tokens[0..] == tokens;
    OneEof(alphabet, source, 0, tokens);
  }

  // ---------- Quoting ----------

  function Escaped(quote: char, c: char): string {
    if c == quote || c == '\\' then ['\\', c] else if c == '\n' then "\\n" else if c == '\r' then "\\r" else [c]
  }

  function Escape(quote: char, s: string): string {
    if s == "" then "" else Escaped(quote, s[0]) + Escape(quote, s[1..])
  }

  predicate Reads(source: string, i: nat, text: string) {
    i + |text| <= |source| && source[i..i + |text|] == text
  }

  lemma ReadsSplit(source: string, i: nat, a: string, b: string)
    requires Reads(source, i, a + b)
    ensures Reads(source, i, a) && Reads(source, i + |a|, b)
  {
    var text := source[i..i + |a + b|];
    assert source[i..i + |a|] == text[..|a|] && source[i + |a|..i + |a| + |b|] == text[|a|..];
  }

  /** One character, escaped where it must be, is read as itself. */
  lemma EscapedReadsBack(alphabet: Alphabet, source: string, start: nat, quote: char, cursor: nat, value: string,
          c: char)
    requires quote in {'\'', '"'} && start < cursor && Reads(source, cursor, Escaped(quote, c))
    ensures StringFrom(alphabet, source, start, quote, cursor, value)
      == StringFrom(alphabet, source, start, quote, cursor + |Escaped(quote, c)|, value + [c])
  {
    var e := source[cursor..cursor + |Escaped(quote, c)|];
    assert source[cursor] == e[0];
    assert |e| > 1 ==> source[cursor + 1] == e[1];
  }

  /** Reading a quoted string gives the string back, and stops just past the closing quote. */
  lemma {:induction false} QuotedReadsBack(alphabet: Alphabet, source: string, start: nat, quote: char, cursor: nat,
          value: string, s: string)
    requires quote in {'\'', '"'} && start < cursor && Reads(source, cursor, Escape(quote, s) + [quote])
    ensures StringFrom(alphabet, source, start, quote, cursor, value)
      == Ok(Lexeme(Token(String, value + s, start), cursor + |Escape(quote, s)| + 1))
    decreases |s|
  {
    hide Escaped, Reads;
    if s == "" {
      QuoteEnds(alphabet, source, start, quote, cursor, value);
      assert value + s == value;
    } else {
      var e, rest := Escaped(quote, s[0]), Escape(quote, s[1..]);
      assert Escape(quote, s) + [quote] == e + (rest + [quote]);
      ReadsSplit(source, cursor, e, rest + [quote]);
      EscapedReadsBack(alphabet, source, start, quote, cursor, value, s[0]);
      QuotedReadsBack(alphabet, source, start, quote, cursor + |e|, value + [s[0]], s[1..]);
      assert value + [s[0]] + s[1..] == value + s;
    }
  }

  lemma QuoteEnds(alphabet: Alphabet, source: string, start: nat, quote: char, cursor: nat, value: string)
    requires start < cursor && Reads(source, cursor, Escape(quote, "") + [quote])
    ensures StringFrom(alphabet, source, start, quote, cursor, value) == Ok(Lexeme(Token(String, value, start), cursor + 1))
  {
    assert source[cursor] == source[cursor..cursor + 1][0];
  }

  lemma QuotedIsOneToken(alphabet: Alphabet, before: string, quote: char, s: string, after: string)
    requires quote in {'\'', '"'}
    ensures TokenAt(alphabet, before + [quote] + Escape(quote, s) + [quote] + after, |before|)
      == Ok(Lexeme(Token(String, s, |before|), |before| + |Escape(quote, s)| + 2))
  {
    hide Escape, StringFrom;
    var source := before + [quote] + Escape(quote, s) + [quote] + after;
    assert source[|before|] == quote;
    var text := Escape(quote, s) + [quote];
    assert source == before + [quote] + text + after;
    assert source[|before| + 1..|before| + 1 + |text|] == text;
    QuotedReadsBack(alphabet, source, |before|, quote, |before| + 1, "", s);
    assert "" + s == s;
  }
}
