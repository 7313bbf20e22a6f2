/** What the tokens of the restricted expression language are, given apart from the tokenizer: which texts are number
    literals, names and string literals, that the tokenizer takes the longest one it can, and that a source written
    from tokens is cut into those tokens again. */
module CelLexicon {
  import opened Wrappers
  import opened CelParsing
  import opened CelTokens

  // ---------- Number literals ----------

  predicate DigitsOnly(s: string) {
    forall k :: 0 <= k < |s| ==> '0' <= s[k] <= '9'
  }

  predicate IntegerPart(s: string) {
    s == "0" || (s != "" && '1' <= s[0] <= '9' && DigitsOnly(s))
  }

  predicate FractionPart(s: string) {
    s == "" || (|s| >= 2 && s[0] == '.' && DigitsOnly(s[1..]))
  }

  predicate ExponentPart(s: string) {
    || s == ""
    || (|s| >= 2 && (s[0] == 'e' || s[0] == 'E') && DigitsOnly(s[1..]))
    || (|s| >= 3 && (s[0] == 'e' || s[0] == 'E') && (s[1] == '+' || s[1] == '-') && DigitsOnly(s[2..]))
  }

  predicate Parted(s: string, a: nat, b: nat) {
    a <= b <= |s| && IntegerPart(s[..a]) && FractionPart(s[a..b]) && ExponentPart(s[b..])
  }

  /** 0, or digits that do not begin with 0; then perhaps a fraction; then perhaps an exponent. */
  ghost predicate NumberLiteral(s: string) {
    exists a: nat, b: nat :: Parted(s, a, b)
  }

  // The same, at positions of a source.

  predicate DigitsIn(source: string, lo: nat, hi: nat) {
    lo <= hi <= |source| && forall k :: lo <= k < hi ==> IsDigit(source[k])
  }

  predicate IntegerIn(source: string, i: nat, p: nat) {
    i < p <= |source| && if source[i] == '0' then p == i + 1 else DigitsIn(source, i, p)
  }

  predicate FractionIn(source: string, p: nat, q: nat) {
    p <= q <= |source| && (p < q ==> source[p] == '.' && p + 1 < q && DigitsIn(source, p + 1, q))
  }

  predicate ExponentIn(source: string, q: nat, k: nat) {
    q <= k <= |source| && (q < k ==>
      && (source[q] == 'e' || source[q] == 'E') && q + 1 < k
      && var j := if source[q + 1] == '+' || source[q + 1] == '-' then q + 2 else q + 1; j < k && DigitsIn(source, j, k))
  }

  lemma PartsIn(source: string, i: nat, p: nat, q: nat, k: nat)
    requires i <= p <= q <= k <= |source|
    ensures IntegerPart(source[i..p]) <==> IntegerIn(source, i, p)
    ensures FractionPart(source[p..q]) <==> FractionIn(source, p, q)
    ensures ExponentPart(source[q..k]) <==> ExponentIn(source, q, k)
  {
    IntegerIs(source, i, p);
    FractionIs(source, p, q);
    ExponentIs(source, q, k);
  }

  lemma DigitsAre(source: string, lo: nat, hi: nat)
    requires lo <= hi <= |source|
    ensures DigitsOnly(source[lo..hi]) <==> DigitsIn(source, lo, hi)
  {
    if DigitsOnly(source[lo..hi]) {
      forall k | lo <= k < hi
        ensures IsDigit(source[k])
      {
        assert source[lo..hi][k - lo] == source[k];
      }
    }
  }

  lemma IntegerIs(source: string, i: nat, p: nat)
    requires i <= p <= |source|
    ensures IntegerPart(source[i..p]) <==> IntegerIn(source, i, p)
  {
    var s := source[i..p];
    DigitsAre(source, i, p);
    assert |s| > 0 ==> s[0] == source[i];
    if s != "" && s[0] == '0' && |s| == 1 {
      assert s == "0";
    }
    if IntegerIn(source, i, p) && source[i] != '0' {
      assert IsDigit(source[i]);
    }
  }

  lemma FractionIs(source: string, p: nat, q: nat)
    requires p <= q <= |source|
    ensures FractionPart(source[p..q]) <==> FractionIn(source, p, q)
  {
    if p + 1 < q {
      assert source[p..q][1..] == source[p + 1..q];
      DigitsAre(source, p + 1, q);
    }
  }

  lemma ExponentIs(source: string, q: nat, k: nat)
    requires q <= k <= |source|
    ensures ExponentPart(source[q..k]) <==> ExponentIn(source, q, k)
  {
    if q + 1 < k {
      var s := source[q..k];
      assert s[0] == source[q] && s[1] == source[q + 1];
      assert s[1..] == source[q + 1..k];
      DigitsAre(source, q + 1, k);
      if q + 2 < k {
        assert s[2..] == source[q + 2..k];
        DigitsAre(source, q + 2, k);
      }
      assert source[q + 1] == '+' || source[q + 1] == '-' ==> !IsDigit(source[q + 1]);
    }
  }

  lemma WithDigitsIs(source: string, i: nat, j: nat, k: nat)
    requires i <= j <= |source|
    ensures WithDigits(source, i, j) == i || (j < WithDigits(source, i, j) && DigitsIn(source, j, WithDigits(source, i, j)))
    ensures j < k && DigitsIn(source, j, k) ==> k <= WithDigits(source, i, j)
  {
    var end := CelTokens.Digits(source, j);
    assert end < |source| ==> !IsDigit(source[end]);
  }

  /** The greedy parts are parts of a number literal. */
  lemma GreedyIsLiteral(source: string, i: nat)
    requires i < |source| && IsDigit(source[i])
    ensures NumberLiteral(source[i..NumberEnd(source, i)])
  {
    hide Parted, IntegerPart, FractionPart, ExponentPart, AfterFraction, AfterExponent, FractionIn, ExponentIn;
    var p := if source[i] == '0' then i + 1 else CelTokens.Digits(source, i + 1);
    var q := AfterFraction(source, p);
    var k := NumberEnd(source, i);
    assert IntegerIn(source, i, p);
    FractionIsGreedy(source, p, q);
    ExponentIsGreedy(source, q, k);
    PartsIn(source, i, p, q, k);
    PartedIn(source, i, p, q, k);
  }

  lemma SliceOfSlice(source: string, i: nat, k: nat, p: nat, q: nat)
    requires i <= p <= q <= k <= |source|
    ensures source[i..k][p - i..q - i] == source[p..q]
  {
    var part := source[i..k];
    assert forall j :: p - i <= j < q - i ==> part[j] == source[i + j];
  }

  lemma PartedIn(source: string, i: nat, p: nat, q: nat, k: nat)
    requires i <= p <= q <= k <= |source|
    ensures Parted(source[i..k], p - i, q - i) <==>
      IntegerPart(source[i..p]) && FractionPart(source[p..q]) && ExponentPart(source[q..k])
  {
    hide IntegerPart, FractionPart, ExponentPart;
    var s := source[i..k];
    assert s[..p - i] == source[i..p];
    SliceOfSlice(source, i, k, p, q);
    assert s[q - i..] == source[q..k];
  }

  lemma FractionIsGreedy(source: string, p: nat, q: nat)
    requires p <= |source|
    ensures FractionIn(source, p, AfterFraction(source, p))
    ensures FractionIn(source, p, q) ==> q <= AfterFraction(source, p)
  {
    if p < |source| && source[p] == '.' {
      WithDigitsIs(source, p, p + 1, q);
    }
  }

  lemma ExponentIsGreedy(source: string, q: nat, k: nat)
    requires q <= |source|
    ensures ExponentIn(source, q, AfterExponent(source, q))
    ensures ExponentIn(source, q, k) ==> k <= AfterExponent(source, q)
  {
    if q < |source| && (source[q] == 'e' || source[q] == 'E') {
      var j := if q + 1 < |source| && (source[q + 1] == '+' || source[q + 1] == '-') then q + 2 else q + 1;
      WithDigitsIs(source, q, j, k);
    }
  }

  /** No literal at i goes past the greedy parts. */
  lemma NoLongerLiteral(source: string, i: nat, p: nat, q: nat, k: nat)
    requires i < |source| && IsDigit(source[i]) && p <= q <= k
    requires IntegerIn(source, i, p) && FractionIn(source, p, q) && ExponentIn(source, q, k)
    ensures k <= NumberEnd(source, i)
  {
    hide AfterExponent, AfterFraction;
    var p' := if source[i] == '0' then i + 1 else CelTokens.Digits(source, i + 1);
    var q' := AfterFraction(source, p');
    assert p' < |source| && source[i] != '0' ==> !IsDigit(source[p']);
    if p < p' {
      assert IsDigit(source[p]);
    } else {
      FractionIsGreedy(source, p, q);
      if q < q' {
        FractionIsGreedy(source, p, q');
        assert q == p || IsDigit(source[q]);
      } else {
        ExponentIsGreedy(source, q, k);
      }
    }
  }

  lemma NoneEndsAt(source: string, i: nat, p: nat, q: nat, k: nat)
    requires i < |source| && IsDigit(source[i]) && NumberEnd(source, i) < k && p <= q <= k
    ensures !(IntegerIn(source, i, p) && FractionIn(source, p, q) && ExponentIn(source, q, k))
  {
    hide NumberEnd, IntegerIn, FractionIn, ExponentIn;
    if IntegerIn(source, i, p) && FractionIn(source, p, q) && ExponentIn(source, q, k) {
      NoLongerLiteral(source, i, p, q, k);
    }
  }

  /** A number token is a number literal, and no longer piece of the source from its beginning is one. */
  lemma NumberIsLongest(source: string, i: nat)
    requires i < |source| && IsDigit(source[i])
    ensures NumberLiteral(source[i..NumberEnd(source, i)])
    ensures forall k :: NumberEnd(source, i) < k <= |source| ==> !NumberLiteral(source[i..k])
  {
    hide NumberEnd, IntegerIn, FractionIn, ExponentIn, IntegerPart, FractionPart, ExponentPart;
    GreedyIsLiteral(source, i);
    forall k | NumberEnd(source, i) < k <= |source|
      ensures !NumberLiteral(source[i..k])
    {
      var s := source[i..k];
      forall a: nat, b: nat
        ensures !Parted(s, a, b)
      {
        if a <= b <= |s| {
          PartedIn(source, i, i + a, i + b, k);
          PartsIn(source, i, i + a, i + b, k);
          NoneEndsAt(source, i, i + a, i + b, k);
        }
      }
    }
  }

  // ---------- String literals ----------

  const ESCAPES: set<(char, char)> :=
    {('\'', '\''), ('"', '"'), ('\\', '\\'), ('b', '\U{0008}'), ('f', '\U{000C}'), ('n', '\n'), ('r', '\r'), ('t', '\t')}

  predicate HexDigit(c: char, d: nat) {
    d < 16 && (c == "0123456789abcdef"[d] || c == "0123456789ABCDEF"[d])
  }

  ghost predicate HexCode(s: string, n: nat) {
    && |s| == 4
    && exists a: nat, b: nat, c: nat, d: nat ::
      HexDigit(s[0], a) && HexDigit(s[1], b) && HexDigit(s[2], c) && HexDigit(s[3], d) && n == 4096 * a + 256 * b + 16 * c + d
  }

  /** The inside of a string literal, from position k on, spells v: a plain character itself, an escaped one by the
      table, a code of four hexadecimal digits its character. */
  ghost predicate Spells(alphabet: Alphabet, quote: char, text: string, k: nat, v: string)
    requires k <= |text|
    decreases |text| - k
  {
    if k == |text| then v == ""
    else if v == "" then false
    else if text[k] != '\\' then
      text[k] != quote && text[k] != '\n' && text[k] != '\r' && v[0] == text[k] && Spells(alphabet, quote, text, k + 1, v[1..])
    else
      || (k + 2 <= |text| && (text[k + 1], v[0]) in ESCAPES && Spells(alphabet, quote, text, k + 2, v[1..]))
      || (k + 6 <= |text| && text[k + 1] == 'u' && SpellsCode(alphabet, text[k + 2..k + 6], v[0])
          && Spells(alphabet, quote, text, k + 6, v[1..]))
  }

  ghost predicate SpellsCode(alphabet: Alphabet, digits: string, c: char) {
    exists n: nat :: HexCode(digits, n) && c == alphabet.fromCode(n)
  }

  lemma HexDigitIs(c: char, d: nat)
    ensures HexDigit(c, d) <==> IsHex(c) && HexValue(c) == d
  {
    if d < 16 {
      assert "0123456789abcdef"[d] == if d < 10 then '0' + d as char else 'a' + (d - 10) as char;
      assert "0123456789ABCDEF"[d] == if d < 10 then '0' + d as char else 'A' + (d - 10) as char;
    }
  }

  lemma FourHexIs(s: string, n: nat)
    ensures HexCode(s, n) <==> |s| == 4 && (forall k :: 0 <= k < 4 ==> IsHex(s[k])) && n == FourHex(s)
  {
    hide HexDigit, HexValue, IsHex;
    if |s| == 4 {
      forall k, d: nat | 0 <= k < 4
        ensures HexDigit(s[k], d) <==> IsHex(s[k]) && HexValue(s[k]) == d
      {
        HexDigitIs(s[k], d);
      }
      if forall k :: 0 <= k < 4 ==> IsHex(s[k]) {
        assert HexDigit(s[0], HexValue(s[0])) && HexDigit(s[1], HexValue(s[1]));
        assert HexDigit(s[2], HexValue(s[2])) && HexDigit(s[3], HexValue(s[3]));
      }
    }
  }

  lemma EscapeIs(c: char, v: char)
    ensures (c, v) in ESCAPES <==> SimpleEscape(c) == Some(v)
  {
  }

  /** One piece of a literal, and the reader's step over it. */
  lemma {:induction false} SpelledIsRead(alphabet: Alphabet, source: string, start: nat, quote: char, cursor: nat,
          value: string, end: nat, v: string)
    requires quote in {'\'', '"'} && start < cursor < end <= |source| && source[end - 1] == quote
    requires Spells(alphabet, quote, source[..end - 1], cursor, v)
    ensures StringFrom(alphabet, source, start, quote, cursor, value) == Ok(Lexeme(Token(String, value + v, start), end))
    decreases end - cursor
  {
    hide ESCAPES, HexCode;
    var text := source[..end - 1];
    if cursor == end - 1 {
      assert value + v == value;
    } else {
      assert text[cursor] == source[cursor];
      assert value + [v[0]] + v[1..] == value + v;
      if text[cursor] != '\\' {
        SpelledIsRead(alphabet, source, start, quote, cursor + 1, value + [v[0]], end, v[1..]);
      } else {
        assert source[cursor + 1] == text[cursor + 1];
        EscapeIs(text[cursor + 1], v[0]);
        if (text[cursor + 1], v[0]) in ESCAPES && Spells(alphabet, quote, text, cursor + 2, v[1..]) {
          SpelledIsRead(alphabet, source, start, quote, cursor + 2, value + [v[0]], end, v[1..]);
        } else {
          CodeIsRead(alphabet, source, start, quote, cursor, value, end, v[0]);
          SpelledIsRead(alphabet, source, start, quote, cursor + 6, value + [v[0]], end, v[1..]);
        }
      }
    }
  }

  lemma CodeIsRead(alphabet: Alphabet, source: string, start: nat, quote: char, cursor: nat, value: string, end: nat,
          c: char)
    requires start < cursor && cursor + 6 < end <= |source| && quote in {'\'', '"'}
    requires source[cursor] == '\\' && source[cursor + 1] == 'u'
    requires SpellsCode(alphabet, source[..end - 1][cursor + 2..cursor + 6], c)
    ensures StringFrom(alphabet, source, start, quote, cursor, value)
         == StringFrom(alphabet, source, start, quote, cursor + 6, value + [c])
  {
    hide HexCode, IsHex, FourHex;
    var digits := source[cursor + 2..cursor + 6];
    assert source[..end - 1][cursor + 2..cursor + 6] == digits;
    var n: nat :| HexCode(digits, n) && c == alphabet.fromCode(n);
    FourHexIs(digits, n);
    assert forall k :: cursor + 2 <= k < cursor + 6 ==> source[k] == digits[k - cursor - 2];
  }

  lemma CodeRead(alphabet: Alphabet, source: string, start: nat, quote: char, cursor: nat, value: string) returns (c: char)
    requires quote in {'\'', '"'} && start < cursor && cursor + 1 < |source|
    requires source[cursor] == '\\' && SimpleEscape(source[cursor + 1]).None?
    requires StringFrom(alphabet, source, start, quote, cursor, value).Ok?
    ensures cursor + 6 <= |source| && source[cursor + 1] == 'u'
    ensures SpellsCode(alphabet, source[cursor + 2..cursor + 6], c)
    ensures StringFrom(alphabet, source, start, quote, cursor, value)
         == StringFrom(alphabet, source, start, quote, cursor + 6, value + [c])
  {
    hide HexCode, FourHex, IsHex, SimpleEscape;
    var digits := source[cursor + 2..cursor + 6];
    assert forall k :: 0 <= k < 4 ==> digits[k] == source[cursor + 2 + k];
    c := alphabet.fromCode(FourHex(digits));
    FourHexIs(digits, FourHex(digits));
  }

  /** One step of the reader. */
  lemma ReadStep(alphabet: Alphabet, source: string, start: nat, quote: char, cursor: nat, value: string)
    requires quote in {'\'', '"'} && start < cursor <= |source|
    requires StringFrom(alphabet, source, start, quote, cursor, value).Ok?
    ensures cursor < |source|
    ensures var r, c := StringFrom(alphabet, source, start, quote, cursor, value), source[cursor];
      if c == quote then r == Ok(Lexeme(Token(String, value, start), cursor + 1))
      else if c != '\\' then c !in {'\n', '\r'} && r == StringFrom(alphabet, source, start, quote, cursor + 1, value + [c])
      else
        cursor + 1 < |source| && (SimpleEscape(source[cursor + 1]).Some? ==>
          r == StringFrom(alphabet, source, start, quote, cursor + 2, value + [SimpleEscape(source[cursor + 1]).value]))
  {
    hide SimpleEscape, FourHex, IsHex;
  }

  lemma {:induction false} ReadIsSpelled(alphabet: Alphabet, source: string, start: nat, quote: char, cursor: nat,
          value: string) returns (v: string)
    requires quote in {'\'', '"'} && start < cursor <= |source|
    requires StringFrom(alphabet, source, start, quote, cursor, value).Ok?
    ensures var t := StringFrom(alphabet, source, start, quote, cursor, value).value;
      t.token == Token(String, value + v, start) && Spells(alphabet, quote, source[..t.end - 1], cursor, v)
    decreases |source| - cursor
  {
    hide ESCAPES, SpellsCode, Spells, StringFrom, SimpleEscape;
    ReadStep(alphabet, source, start, quote, cursor, value);
    var end := StringFrom(alphabet, source, start, quote, cursor, value).value.end;
    var c := source[cursor];
    var text := source[..end - 1];
    if c == quote {
      v := "";
      NothingSpells(alphabet, quote, text, v);
      assert value + v == value;
    } else {
      var first, size := c, 1;
      if c == '\\' && SimpleEscape(source[cursor + 1]).Some? {
        first, size := SimpleEscape(source[cursor + 1]).value, 2;
        EscapeIs(source[cursor + 1], first);
      } else if c == '\\' {
        first := CodeRead(alphabet, source, start, quote, cursor, value);
        size := 6;
      }
      var rest := ReadIsSpelled(alphabet, source, start, quote, cursor + size, value + [first]);
      v := [first] + rest;
      assert value + [first] + rest == value + v && v[1..] == rest;
      if size == 1 {
        PlainSpells(alphabet, quote, text, cursor, v);
      } else if size == 2 {
        EscapeSpells(alphabet, quote, text, cursor, v);
      } else {
        assert text[cursor + 2..cursor + 6] == source[cursor + 2..cursor + 6];
        CodeSpells(alphabet, quote, text, cursor, v);
      }
    }
  }

  lemma NothingSpells(alphabet: Alphabet, quote: char, text: string, v: string)
    requires v == ""
    ensures Spells(alphabet, quote, text, |text|, v)
  {
  }

  lemma PlainSpells(alphabet: Alphabet, quote: char, text: string, k: nat, v: string)
    requires k < |text| && text[k] !in {quote, '\n', '\r', '\\'} && v != "" && v[0] == text[k]
    requires Spells(alphabet, quote, text, k + 1, v[1..])
    ensures Spells(alphabet, quote, text, k, v)
  {
  }

  lemma EscapeSpells(alphabet: Alphabet, quote: char, text: string, k: nat, v: string)
    requires k + 2 <= |text| && text[k] == '\\' && v != "" && (text[k + 1], v[0]) in ESCAPES
    requires Spells(alphabet, quote, text, k + 2, v[1..])
    ensures Spells(alphabet, quote, text, k, v)
  {
    hide ESCAPES;
  }

  lemma CodeSpells(alphabet: Alphabet, quote: char, text: string, k: nat, v: string)
    requires k + 6 <= |text| && text[k] == '\\' && text[k + 1] == 'u' && v != ""
    requires SpellsCode(alphabet, text[k + 2..k + 6], v[0]) && Spells(alphabet, quote, text, k + 6, v[1..])
    ensures Spells(alphabet, quote, text, k, v)
  {
    hide ESCAPES, SpellsCode;
  }

  // ---------- Tokens ----------

  predicate PartOfName(c: char) { 'a' <= c <= 'z' || 'A' <= c <= 'Z' || '0' <= c <= '9' || c == '_' }

  /** Letters, digits and underscores, not beginning with a digit. */
  predicate Name(s: string) {
    s != "" && !('0' <= s[0] <= '9') && forall k :: 0 <= k < |s| ==> PartOfName(s[k])
  }

  /** The token is the one that begins where it says: the longest number literal, the longest name, an operator of two
      characters where there is one and else of one, a punctuation mark, or a string literal and what it spells. */
  ghost predicate IsToken(alphabet: Alphabet, source: string, t: Lexeme) {
    var i := t.token.offset;
    i < t.end <= |source| &&
    match t.token.kind
    case Number =>
      && t.token.value == source[i..t.end] && NumberLiteral(source[i..t.end])
      && forall k :: t.end < k <= |source| ==> !NumberLiteral(source[i..k])
    case Identifier =>
      && t.token.value == source[i..t.end] && Name(source[i..t.end])
      && forall k :: t.end < k <= |source| ==> !Name(source[i..k])
    case Operator =>
      && t.token.value == source[i..t.end]
      && if i + 2 <= |source| && source[i..i + 2] in {"&&", "||", "==", "!=", "<=", ">="} then t.end == i + 2
         else source[i..t.end] in {"+", "-", "*", "/", "%", "!", "<", ">"}
    case Punctuation =>
      t.token.value == source[i..t.end] && source[i..t.end] in {"{", "}", "[", "]", "(", ")", ",", ":", "?", "."}
    case String =>
      && i + 1 < t.end && (source[i] == '\'' || source[i] == '"') && source[t.end - 1] == source[i]
      && Spells(alphabet, source[i], source[..t.end - 1], i + 1, t.token.value)
    case Eof => false
  }

  lemma NameIs(source: string, i: nat, k: nat)
    requires i < k <= |source|
    ensures Name(source[i..k]) <==> IsLetter(source[i]) && forall j :: i < j < k ==> NameChar(source[j])
  {
    var s := source[i..k];
    assert s[0] == source[i];
    if Name(s) {
      forall j | i < j < k
        ensures NameChar(source[j])
      {
        assert s[j - i] == source[j];
      }
    }
  }

  lemma NameIsLongest(source: string, i: nat)
    requires i < |source| && IsLetter(source[i])
    ensures var end := SkipWhile(source, i + 1, NameChar);
      Name(source[i..end]) && forall k :: end < k <= |source| ==> !Name(source[i..k])
  {
    var end := SkipWhile(source, i + 1, NameChar);
    NameIs(source, i, end);
    forall k | end < k <= |source|
      ensures !Name(source[i..k])
    {
      NameIs(source, i, k);
      assert !NameChar(source[end]);
    }
  }

  lemma BeginsWithDigit(source: string, i: nat, k: nat)
    requires i < k <= |source| && NumberLiteral(source[i..k])
    ensures IsDigit(source[i])
  {
    var s := source[i..k];
    var a: nat, b: nat :| Parted(s, a, b);
    assert s[0] == source[i] && s[..a][0] == s[0];
  }

  lemma TokenIs(alphabet: Alphabet, source: string, i: nat)
    requires i < |source| && TokenAt(alphabet, source, i).Ok?
    ensures IsToken(alphabet, source, TokenAt(alphabet, source, i).value)
  {
    hide NumberLiteral, NumberEnd, StringFrom, Spells, Name, NameChar;
    var c := source[i];
    if c == '\'' || c == '"' {
      var v := ReadIsSpelled(alphabet, source, i, c, i + 1, "");
      assert "" + v == v;
    } else if IsDigit(c) {
      NumberIsLongest(source, i);
    } else if IsLetter(c) {
      NameIsLongest(source, i);
    }
  }

  /** There is one token at most: two that begin at the same place are the same. */
  lemma TokenIsTheOne(alphabet: Alphabet, source: string, t: Lexeme)
    requires t.token.offset < |source| && IsToken(alphabet, source, t)
    ensures TokenAt(alphabet, source, t.token.offset) == Ok(t)
  {
    hide NumberLiteral, NumberEnd, StringFrom, Spells, Name, NameChar;
    var i := t.token.offset;
    var c := source[i];
    match t.token.kind
    case Number =>
      BeginsWithDigit(source, i, t.end);
      NumberIsLongest(source, i);
    case Identifier =>
      NameIs(source, i, t.end);
      NameIsLongest(source, i);
      assert TokenAt(alphabet, source, i).Ok?;
    case String =>
      SpelledIsRead(alphabet, source, i, c, i + 1, "", t.end, t.token.value);
      assert "" + t.token.value == t.token.value;
    case Operator => OperatorIs(alphabet, source, t);
    case Punctuation => PunctuationIs(alphabet, source, t);
    case Eof =>
  }

  lemma OperatorIs(alphabet: Alphabet, source: string, t: Lexeme)
    requires t.token.offset < |source| && IsToken(alphabet, source, t) && t.token.kind.Operator?
    ensures TokenAt(alphabet, source, t.token.offset) == Ok(t)
  {
    hide NumberEnd, StringFrom;
    var i := t.token.offset;
    var text := source[i..t.end];
    assert text[0] == source[i];
    if t.end == i + 2 {
      assert text in DOUBLE_OPERATORS;
    } else {
      assert text in SINGLE_OPERATORS && |text| == 1;
    }
  }

  lemma PunctuationIs(alphabet: Alphabet, source: string, t: Lexeme)
    requires t.token.offset < |source| && IsToken(alphabet, source, t) && t.token.kind.Punctuation?
    ensures TokenAt(alphabet, source, t.token.offset) == Ok(t)
  {
    hide NumberEnd, StringFrom;
    var i := t.token.offset;
    var text := source[i..t.end];
    assert text in PUNCTUATION && |text| == 1 && text[0] == source[i];
    if i + 2 <= |source| {
      assert source[i..i + 2][0] == source[i];
    }
  }

  /** The source from position i on is these tokens, with white space between them, and the eof. */
  ghost predicate ReadsAs(alphabet: Alphabet, source: string, i: nat, tokens: seq<Lexeme>)
    decreases |tokens|
  {
    && tokens != [] && i <= |source|
    && var t := tokens[0];
      && i <= t.token.offset <= |source| && (forall k :: i <= k < t.token.offset ==> alphabet.isSpace(source[k]))
      && if t.token.kind.Eof? then tokens == [Lexeme(Token(Eof, "", |source|), |source|)]
         else t.token.offset < |source| && !alphabet.isSpace(source[t.token.offset]) && IsToken(alphabet, source, t)
              && ReadsAs(alphabet, source, t.end, tokens[1..])
  }

  lemma {:induction false} DoneComesFirst(alphabet: Alphabet, source: string, i: nat, done: seq<Lexeme>)
    requires i <= |source|
    ensures match TokensFrom(alphabet, source, i, [])
      case Ok(tokens) => TokensFrom(alphabet, source, i, done) == Ok(done + tokens)
      case Err(error) => TokensFrom(alphabet, source, i, done) == Err(error)
    decreases |source| - i
  {
    hide TokenAt;
    if i < |source| {
      if alphabet.isSpace(source[i]) {
        DoneComesFirst(alphabet, source, i + 1, done);
      } else {
        var t := TokenAt(alphabet, source, i);
        if t.Ok? {
          DoneComesFirst(alphabet, source, t.value.end, done + [t.value]);
          DoneComesFirst(alphabet, source, t.value.end, [t.value]);
          var rest := TokensFrom(alphabet, source, t.value.end, []);
          assert rest.Ok? ==> done + [t.value] + rest.value == done + ([t.value] + rest.value);
          assert [] + [t.value] == [t.value];
        }
      }
    } else {
      assert [] + [End(source)] == [End(source)];
    }
  }

  lemma TokenFirst(alphabet: Alphabet, source: string, i: nat)
    requires i < |source| && !alphabet.isSpace(source[i])
    ensures TokensFrom(alphabet, source, i, []) ==
      var t := TokenAt(alphabet, source, i);
      if t.Err? then Err(t.error)
      else
        var rest := TokensFrom(alphabet, source, t.value.end, []);
        if rest.Err? then rest else Ok([t.value] + rest.value)
  {
    hide TokenAt;
    var t := TokenAt(alphabet, source, i);
    if t.Ok? {
      DoneComesFirst(alphabet, source, t.value.end, [t.value]);
      assert [] + [t.value] == [t.value];
    }
  }

  /** The tokenizer returns exactly what the source reads as, and there is only one way to read it. */
  lemma {:induction false} TokensAreWhatIsRead(alphabet: Alphabet, source: string, i: nat, tokens: seq<Lexeme>)
    requires i <= |source|
    ensures TokensFrom(alphabet, source, i, []) == Ok(tokens) <==> ReadsAs(alphabet, source, i, tokens)
    decreases |source| - i
  {
    hide TokenAt, IsToken;
    if i < |source| {
      if alphabet.isSpace(source[i]) {
        TokensAreWhatIsRead(alphabet, source, i + 1, tokens);
      } else {
        TokenFirst(alphabet, source, i);
        FirstIsRead(alphabet, source, i, tokens);
        var t := TokenAt(alphabet, source, i);
        if t.Ok? {
          TokensAreWhatIsRead(alphabet, source, t.value.end, if tokens == [] then [] else tokens[1..]);
          if tokens != [] {
            assert tokens == [tokens[0]] + tokens[1..];
          }
        }
      }
    } else {
      assert [] + [End(source)] == [End(source)];
      assert tokens != [] && tokens[0].token.offset == |source| && !tokens[0].token.kind.Eof? ==>
          !ReadsAs(alphabet, source, i, tokens);
    }
  }

  lemma FirstIsRead(alphabet: Alphabet, source: string, i: nat, tokens: seq<Lexeme>)
    requires i < |source| && !alphabet.isSpace(source[i])
    ensures ReadsAs(alphabet, source, i, tokens) <==>
      tokens != [] && TokenAt(alphabet, source, i) == Ok(tokens[0]) && ReadsAs(alphabet, source, tokens[0].end, tokens[1..])
  {
    hide TokenAt, IsToken;
    if ReadsAs(alphabet, source, i, tokens) {
      TokenIsTheOne(alphabet, source, tokens[0]);
    }
    if TokenAt(alphabet, source, i).Ok? {
      TokenIs(alphabet, source, i);
    }
  }

  // ---------- Sources that cannot be read ----------

  /** What is wrong at the cursor inside the string literal that begins at o. */
  ghost predicate StuckAt(source: string, o: nat, cursor: nat, error: LexError)
    requires cursor <= |source|
  {
    if cursor == |source| || source[cursor] == '\n' || source[cursor] == '\r' then error == LexError(UnterminatedString, o)
    else
      && source[cursor] == '\\'
      && if cursor + 1 == |source| then error == LexError(UnterminatedEscape, cursor)
         else if source[cursor + 1] == 'u' then
           && error == LexError(InvalidUnicodeEscape, cursor)
           && !(cursor + 6 <= |source| && FourDigits(source[cursor + 2..cursor + 6]))
         else
           && error == LexError(UnsupportedEscape(source[cursor + 1]), cursor)
           && source[cursor + 1] !in {'\'', '"', '\\', 'b', 'f', 'n', 'r', 't'}
  }

  ghost predicate FourDigits(s: string) { exists n: nat :: HexCode(s, n) }

  lemma EscapedOnes(c: char)
    ensures SimpleEscape(c).Some? <==> c in {'\'', '"', '\\', 'b', 'f', 'n', 'r', 't'}
  {
  }

  /** One step of the reader on a literal that is broken further on, or here. */
  lemma BrokenStep(alphabet: Alphabet, source: string, start: nat, quote: char, cursor: nat, value: string)
    returns (stuck: bool, first: char, size: nat)
    requires quote in {'\'', '"'} && start < cursor <= |source|
    requires StringFrom(alphabet, source, start, quote, cursor, value).Err?
    ensures stuck ==> StuckAt(source, start, cursor, StringFrom(alphabet, source, start, quote, cursor, value).error)
    ensures !stuck ==> size > 0 && cursor + size <= |source| && source[cursor] != quote
    ensures !stuck ==> StringFrom(alphabet, source, start, quote, cursor, value)
                       == StringFrom(alphabet, source, start, quote, cursor + size, value + [first])
    ensures !stuck ==>
      || (size == 1 && first == source[cursor] && source[cursor] !in {'\n', '\r', '\\'})
      || (size == 2 && source[cursor] == '\\' && (source[cursor + 1], first) in ESCAPES)
      || (size == 6 && source[cursor] == '\\' && source[cursor + 1] == 'u'
          && SpellsCode(alphabet, source[cursor + 2..cursor + 6], first))
  {
    hide ESCAPES, HexCode, FourHex, IsHex, SimpleEscape;
    stuck, first, size := true, ' ', 1;
    if cursor < |source| && source[cursor] != '\n' && source[cursor] != '\r' {
      if source[cursor] != '\\' {
        stuck, first := false, source[cursor];
      } else if cursor + 1 < |source| {
        var escaped := source[cursor + 1];
        EscapedOnes(escaped);
        if SimpleEscape(escaped).Some? {
          stuck, first, size := false, SimpleEscape(escaped).value, 2;
          EscapeIs(escaped, first);
        } else if escaped == 'u' && cursor + 6 <= |source| {
          var digits := source[cursor + 2..cursor + 6];
          assert forall k :: 0 <= k < 4 ==> digits[k] == source[cursor + 2 + k];
          forall n: nat
            ensures HexCode(digits, n) <==> (forall k :: 0 <= k < 4 ==> IsHex(digits[k])) && n == FourHex(digits)
          {
            FourHexIs(digits, n);
          }
          if forall k :: cursor + 2 <= k < cursor + 6 ==> IsHex(source[k]) {
            stuck, first, size := false, alphabet.fromCode(FourHex(digits)), 6;
          } else {
            var k :| cursor + 2 <= k < cursor + 6 && !IsHex(source[k]);
            assert !IsHex(digits[k - cursor - 2]);
          }
        }
      }
    }
  }

  /** A string literal is broken where what it spells so far cannot be gone on with. */
  lemma {:induction false} BrokenIsStuck(alphabet: Alphabet, source: string, start: nat, quote: char, cursor: nat,
          value: string) returns (at: nat, v: string)
    requires quote in {'\'', '"'} && start < cursor <= |source|
    requires StringFrom(alphabet, source, start, quote, cursor, value).Err?
    ensures cursor <= at <= |source| && Spells(alphabet, quote, source[..at], cursor, v)
    ensures StuckAt(source, start, at, StringFrom(alphabet, source, start, quote, cursor, value).error)
    decreases |source| - cursor
  {
    hide ESCAPES, SpellsCode, Spells, StringFrom, StuckAt;
    var stuck, first, size := BrokenStep(alphabet, source, start, quote, cursor, value);
    if stuck {
      at, v := cursor, "";
      NothingSpells(alphabet, quote, source[..at], v);
    } else {
      var rest;
      at, rest := BrokenIsStuck(alphabet, source, start, quote, cursor + size, value + [first]);
      v := [first] + rest;
      var text := source[..at];
      assert v[1..] == rest && text[cursor] == source[cursor];
      if size == 1 {
        PlainSpells(alphabet, quote, text, cursor, v);
      } else if size == 2 {
        EscapeSpells(alphabet, quote, text, cursor, v);
      } else {
        assert text[cursor + 2..cursor + 6] == source[cursor + 2..cursor + 6];
        CodeSpells(alphabet, quote, text, cursor, v);
      }
    }
  }

  /** From o on the source spells v as a string literal until it is broken. */
  ghost predicate BrokenAt(alphabet: Alphabet, source: string, o: nat, at: nat, v: string, error: LexError)
    requires o < |source|
  {
    o < at <= |source| && Spells(alphabet, source[o], source[..at], o + 1, v) && StuckAt(source, o, at, error)
  }

  /** No token begins at o: a string literal there is broken, or the character begins no token at all. */
  ghost predicate Unreadable(alphabet: Alphabet, source: string, o: nat, error: LexError) {
    && o < |source| && (forall t: Lexeme :: t.token.offset == o ==> !IsToken(alphabet, source, t))
    && if source[o] == '\'' || source[o] == '"' then
         exists at: nat, v: string :: BrokenAt(alphabet, source, o, at, v, error)
       else error == LexError(UnsupportedToken(source[o]), o)
  }

  lemma ErrorIsUnreadable(alphabet: Alphabet, source: string, o: nat)
    requires o < |source| && TokenAt(alphabet, source, o).Err?
    ensures Unreadable(alphabet, source, o, TokenAt(alphabet, source, o).error)
  {
    hide IsToken, StuckAt, Spells, StringFrom, NumberEnd;
    forall t: Lexeme | t.token.offset == o
      ensures !IsToken(alphabet, source, t)
    {
      if IsToken(alphabet, source, t) {
        TokenIsTheOne(alphabet, source, t);
      }
    }
    if source[o] == '\'' || source[o] == '"' {
      var at, v := BrokenIsStuck(alphabet, source, o, source[o], o + 1, "");
      assert BrokenAt(alphabet, source, o, at, v, TokenAt(alphabet, source, o).error);
    }
  }

  /** From i to o the source is these tokens, with white space between and after them. */
  ghost predicate ReadsUpTo(alphabet: Alphabet, source: string, i: nat, tokens: seq<Lexeme>, o: nat)
    decreases |tokens|
  {
    if tokens == [] then i <= o <= |source| && forall k :: i <= k < o ==> alphabet.isSpace(source[k])
    else
      var t := tokens[0];
      && i <= t.token.offset < |source| && (forall k :: i <= k < t.token.offset ==> alphabet.isSpace(source[k]))
      && !alphabet.isSpace(source[t.token.offset]) && IsToken(alphabet, source, t)
      && ReadsUpTo(alphabet, source, t.end, tokens[1..], o)
  }

  /** A source is refused where, behind tokens it can be read as, something stands that is none; and the error is what is
      wrong there. */
  lemma {:induction false} RefusedWhereUnreadable(alphabet: Alphabet, source: string, i: nat)
    returns (tokens: seq<Lexeme>, o: nat)
    requires i <= |source| && TokensFrom(alphabet, source, i, []).Err?
    ensures ReadsUpTo(alphabet, source, i, tokens, o) && o < |source| && !alphabet.isSpace(source[o])
    ensures Unreadable(alphabet, source, o, TokensFrom(alphabet, source, i, []).error)
    decreases |source| - i
  {
    hide TokenAt, IsToken, Unreadable;
    if alphabet.isSpace(source[i]) {
      tokens, o := RefusedWhereUnreadable(alphabet, source, i + 1);
    } else {
      TokenFirst(alphabet, source, i);
      var t := TokenAt(alphabet, source, i);
      if t.Err? {
        tokens, o := [], i;
        ErrorIsUnreadable(alphabet, source, i);
      } else {
        var rest;
        rest, o := RefusedWhereUnreadable(alphabet, source, t.value.end);
        tokens := [t.value] + rest;
        TokenIs(alphabet, source, i);
        assert tokens[1..] == rest;
      }
    }
  }
}
