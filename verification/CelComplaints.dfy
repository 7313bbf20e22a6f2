/** What the parser says of tokens that are no expression. */
module CelComplaints {
  import opened Wrappers
  import opened CelParsing

  /** What is said of a name, of a number and of what follows a complete expression. */
  lemma NamesAndNumbers(t: Token, variable: string, safe: string -> bool, end: nat)
    requires (t.kind.Identifier? || t.kind.Number?) && variable !in {"true", "false", "null"}
    ensures var src := Source(Closed([t], end), variable, safe);
      Ready(src) && ParseAll(src) ==
        if t.kind.Number? then (if safe(t.value) then Ok(Literal(Digits(t.value), t.offset)) else Err(Error(UnsafeNumber, t.offset)))
        else if t.value == variable then Ok(Input(t.offset))
        else if t.value == "true" then Ok(Literal(Boolean(true), t.offset))
        else if t.value == "false" then Ok(Literal(Boolean(false), t.offset))
        else if t.value == "null" then Ok(Literal(NullValue, t.offset))
        else Err(Error(UnknownIdentifier(t.value), t.offset))
  {
    var src := Source(Closed([t], end), variable, safe);
    if ParsePrimary(src, 0).Ok? {
      Climb(src, 0, 8, 0);
    } else {
      ErrorClimbs(src, 0, 8, 0);
    }
  }

  /** What is wrong with a primary is what is wrong with the expression that begins there. */
  lemma {:induction false} ErrorClimbs(src: Source, low: nat, high: nat, i: nat)
    requires Ready(src) && i < |src.tokens| && low <= high <= 8 && ParseLevel(src, high, i).Err? && !Sign(src.tokens[i])
    ensures ParseLevel(src, low, i) == ParseLevel(src, high, i)
    decreases high - low
  {
    if low < high {
      ErrorClimbs(src, low + 1, high, i);
      if low == 7 {
        assert ParseBinary(src, 7, i) == ParseUnary(src, i) == ParsePrimary(src, i);
      } else if low > 0 {
        assert ParseBinary(src, low + 1, i).Err?;
      }
    }
  }

  /** An expression written behind some tokens and before one that does not continue it. */
  function Between(pre: seq<Token>, tokens: seq<Token>, t: Token, rest: seq<Token>): seq<Token> {
    Closed(pre + tokens + ([t] + rest), 0)
  }

  lemma ParsedBetween(src: Source, pre: seq<Token>, e: Expression, t: Token, rest: seq<Token>)
    requires src.variable !in {"true", "false", "null"} && WellFormed(src.safe, e) && Stops(t, 0)
    requires src.tokens == Between(pre, Render(src.variable, e, 0), t, rest) && NoEof(pre) && NoEof([t] + rest)
    ensures Ready(src) && (forall i :: 0 <= i < |pre| ==> src.tokens[i] == pre[i])
    ensures var end := |pre| + |Render(src.variable, e, 0)|;
      end < |src.tokens| && src.tokens[end] == t && ParseConditional(src, |pre|) == Ok((e, end))
    ensures src.tokens[|pre|] == Render(src.variable, e, 0)[0]
  {
    hide Render, WellFormed, ParseConditional, Stops;
    var r, more := Render(src.variable, e, 0), [t] + rest;
    RenderHasNoEof(src.variable, e, 0);
    BetweenIs(src, pre, r, more);
    assert more[0] == t;
    Written(src, e, 0, |pre|);
  }

  lemma BetweenIs(src: Source, pre: seq<Token>, r: seq<Token>, more: seq<Token>)
    requires src.variable !in {"true", "false", "null"} && r != [] && more != []
    requires src.tokens == Closed(pre + r + more, 0) && NoEof(pre) && NoEof(r) && NoEof(more)
    ensures Ready(src) && At(src.tokens, |pre|, r) && |src.tokens| == |pre| + |r| + |more| + 1
    ensures (forall i :: 0 <= i < |pre| ==> src.tokens[i] == pre[i]) && src.tokens[|pre|] == r[0]
    ensures src.tokens[|pre| + |r|] == more[0]
  {
    var all := pre + r + more;
    assert forall i :: 0 <= i < |pre| ==> src.tokens[i] == pre[i] && pre[i] in pre;
    assert forall i :: |pre| <= i < |pre| + |r| ==> src.tokens[i] == r[i - |pre|] && r[i - |pre|] in r;
    assert forall i :: |pre| + |r| <= i < |all| ==> src.tokens[i] == more[i - |pre| - |r|] && more[i - |pre| - |r|] in more;
    assert src.tokens[|pre|..|pre| + |r|] == r;
  }

  /** What is wrong with the primary a source begins with is what is wrong with the source. */
  lemma RefusedAsPrimary(src: Source)
    requires Ready(src) && ParsePrimary(src, 0).Err? && !Sign(src.tokens[0])
    ensures ParseAll(src) == Err(ParsePrimary(src, 0).error)
  {
    hide ParseConditional, ParsePrimary, ParseBinary;
    ErrorClimbs(src, 0, 8, 0);
  }

  /** A bracket that is not closed is missed at the token that stands in its place. */
  lemma BracketsAreMissed(e: Expression, variable: string, safe: string -> bool, key: Token, t: Token, rest: seq<Token>)
    requires WellFormed(safe, e) && variable !in {"true", "false", "null"} && Stops(t, 0) && NoEof([t] + rest)
    requires key.kind.String? && key.value != "}"
    ensures t.value != ")" ==>
      Refuses([Mark("(")], variable, safe, e, t, rest, Error(Expected(")"), t.offset))
    ensures t.value != "," && t.value != "]" && Render(variable, e, 0)[0].value != "]" ==>
      Refuses([Mark("[")], variable, safe, e, t, rest, Error(Expected("]"), t.offset))
    ensures t.value != "," && t.value != "}" ==>
      Refuses([Mark("{"), key, Mark(":")], variable, safe, e, t, rest, Error(Expected("}"), t.offset))
    ensures t.value == "," && rest != [] && rest[0].kind.String? && rest[0].value == key.value ==>
      Refuses([Mark("{"), key, Mark(":")], variable, safe, e, t, rest, Error(DuplicateKey(key.value), rest[0].offset))
    ensures t.value == "," && rest != [] && !rest[0].kind.String? ==>
      Refuses([Mark("{"), key, Mark(":")], variable, safe, e, t, rest, Error(KeyNotString, rest[0].offset))
  {
    hide Render, WellFormed, ParseAll, ParseConditional, Stops, Refuses;
    if t.value != ")" { ParenthesisIsMissed(e, variable, safe, t, rest); }
    if t.value != "," && t.value != "]" && Render(variable, e, 0)[0].value != "]" {
      ArrayEndIsMissed(e, variable, safe, t, rest);
    }
    if if t.value == "," then rest != [] && (rest[0].kind.String? ==> rest[0].value == key.value) else t.value != "}" {
      MemberIsRefused(e, variable, safe, key, t, rest);
    }
  }

  predicate Refuses(pre: seq<Token>, variable: string, safe: string -> bool, e: Expression, t: Token, rest: seq<Token>,
          error: Error) {
    var src := Source(Between(pre, Render(variable, e, 0), t, rest), variable, safe);
    Ready(src) && ParseAll(src) == Err(error)
  }

  lemma ParenthesisIsMissed(e: Expression, variable: string, safe: string -> bool, t: Token, rest: seq<Token>)
    requires WellFormed(safe, e) && variable !in {"true", "false", "null"} && Stops(t, 0) && NoEof([t] + rest)
    requires t.value != ")"
    ensures Refuses([Mark("(")], variable, safe, e, t, rest, Error(Expected(")"), t.offset))
  {
    hide Render, WellFormed, ParseConditional, ParseAll, Stops, Ready, Between;
    var src := Source(Between([Mark("(")], Render(variable, e, 0), t, rest), variable, safe);
    ParsedBetween(src, [Mark("(")], e, t, rest);
    assert src.tokens[0] == Mark("(");
    RefusedAsPrimary(src);
  }

  lemma ArrayEndIsMissed(e: Expression, variable: string, safe: string -> bool, t: Token, rest: seq<Token>)
    requires WellFormed(safe, e) && variable !in {"true", "false", "null"} && Stops(t, 0) && NoEof([t] + rest)
    requires t.value != "," && t.value != "]" && Render(variable, e, 0)[0].value != "]"
    ensures Refuses([Mark("[")], variable, safe, e, t, rest, Error(Expected("]"), t.offset))
  {
    hide Render, WellFormed, ParseConditional, ParseAll, Stops, Ready, Between;
    var src := Source(Between([Mark("[")], Render(variable, e, 0), t, rest), variable, safe);
    ParsedBetween(src, [Mark("[")], e, t, rest);
    assert src.tokens[0] == Mark("[");
    RefusedAsPrimary(src);
  }

  lemma MemberIsRefused(e: Expression, variable: string, safe: string -> bool, key: Token, t: Token, rest: seq<Token>)
    requires WellFormed(safe, e) && variable !in {"true", "false", "null"} && Stops(t, 0) && NoEof([t] + rest)
    requires key.kind.String? && key.value != "}" && t.value != "}"
      && (t.value == "," ==> rest != [] && (rest[0].kind.String? ==> rest[0].value == key.value))
    ensures Refuses([Mark("{"), key, Mark(":")], variable, safe, e, t, rest,
                    if t.value != "," then Error(Expected("}"), t.offset)
                    else if rest[0].kind.String? then Error(DuplicateKey(key.value), rest[0].offset)
                    else Error(KeyNotString, rest[0].offset))
  {
    hide Render, WellFormed, ParseConditional, ParseAll, Stops, Ready, Between;
    var pre := [Mark("{"), key, Mark(":")];
    var src := Source(Between(pre, Render(variable, e, 0), t, rest), variable, safe);
    ParsedBetween(src, pre, e, t, rest);
    assert src.tokens[0] == pre[0] && src.tokens[1] == pre[1] && src.tokens[2] == pre[2];
    var end := 3 + |Render(variable, e, 0)|;
    if t.value == "," {
      NextIs(src, pre, Render(variable, e, 0), t, rest);
      SecondKey(src, e, end);
    } else {
      assert ParseEntries(src, [], 1) == Err(Error(Expected("}"), t.offset));
    }
    assert ParsePrimary(src, 0) == Err(ParseEntries(src, [], 1).error) by {
      hide ParseEntries;
    }
    RefusedAsPrimary(src);
  }

  /** The second member of an object begins with no string, or with the first key again. */
  lemma SecondKey(src: Source, e: Expression, j: nat)
    requires Ready(src) && 3 < |src.tokens| && j + 1 < |src.tokens| && ParseConditional(src, 3) == Ok((e, j))
    requires src.tokens[1].kind.String? && src.tokens[2].value == ":" && src.tokens[j].value == ","
    requires src.tokens[j + 1].kind.String? ==> src.tokens[j + 1].value == src.tokens[1].value
    ensures ParseEntries(src, [], 1) ==
      Err(if src.tokens[j + 1].kind.String? then Error(DuplicateKey(src.tokens[1].value), src.tokens[j + 1].offset)
          else Error(KeyNotString, src.tokens[j + 1].offset))
  {
    hide ParseConditional;
    var one := Entry(src.tokens[1].value, e, src.tokens[1].offset);
    EntriesStep(src, [], e, 1, j);
    assert [] + [one] == [one] && [one][0].key == one.key;
    assert HasKey([one], one.key);
  }

  lemma NextIs(src: Source, pre: seq<Token>, r: seq<Token>, t: Token, rest: seq<Token>)
    requires src.tokens == Between(pre, r, t, rest) && rest != []
    ensures |pre| + |r| + 1 < |src.tokens| && src.tokens[|pre| + |r| + 1] == rest[0]
  {
  }

  lemma NothingMayFollow(e: Expression, variable: string, safe: string -> bool, t: Token, rest: seq<Token>, end: nat)
    requires WellFormed(safe, e) && variable !in {"true", "false", "null"} && Stops(t, 0) && NoEof([t] + rest)
    ensures var src := Source(Closed(Render(variable, e, 0) + ([t] + rest), end), variable, safe);
      Ready(src) && ParseAll(src) == Err(Error(if t.value == "." then MemberAccess else Unexpected(t.value), t.offset))
  {
    hide Render, WellFormed, ParseConditional;
    var r := Render(variable, e, 0);
    RenderHasNoEof(variable, e, 0);
    var more := [t] + rest;
    var src := Source(Closed(r + more, end), variable, safe);
    assert forall i :: 0 <= i < |r| ==> src.tokens[i] == r[i] && r[i] in r;
    assert forall i :: |r| <= i < |r + more| ==> src.tokens[i] == more[i - |r|] && more[i - |r|] in more;
    assert src.tokens[0..0 + |r|] == r && src.tokens[|r|] == t && t in more;
    Written(src, e, 0, 0);
  }

  /** What cannot begin an expression is unexpected, the end of the source included; and a name before a parenthesis is
      taken for a call. */
  lemma NothingBeginsLikeThis(src: Source)
    requires Ready(src) && !Sign(src.tokens[0])
    ensures src.tokens[0].kind.Identifier? && src.tokens[1].value == "(" ==>
      ParseAll(src) == Err(Error(FunctionCall, src.tokens[1].offset))
    ensures src.tokens[0].kind in {Operator, Punctuation, Eof} && src.tokens[0].value !in {"(", "[", "{"} ==>
      ParseAll(src) == Err(Error(Unexpected(src.tokens[0].value), src.tokens[0].offset))
  {
    hide ParseConditional, ParseElements, ParseEntries, ParseAll;
    if ParsePrimary(src, 0).Err? {
      RefusedAsPrimary(src);
    }
  }
}
