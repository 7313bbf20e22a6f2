/** The recursive-descent parser: an object that moves an index over its tokens. */
module CelParser {
  import opened Wrappers
  import opened CelParsing

  class Parser {
    const src: Source
    var index: nat

    ghost predicate Valid()
      reads this
    {
      Ready(src) && index < |src.tokens|
    }

    /** The outcome, and where the index now is, are those of the specification. */
    ghost predicate Agrees(r: Result<Expression, Error>, spec: Parsed)
      reads this
    {
      if r.Ok? then spec == Ok((r.value, index)) else spec == Err(r.error)
    }

    constructor (src: Source)
      requires Ready(src)
      ensures Valid() && this.src == src && index == 0
    {
      this.src := src;
      index := 0;
    }

    // ---------- Tokens ----------

    /** The index never passes the closing eof, so the fallback to the last token is not needed. */
    function Current(): Token
      requires Valid()
      reads this
    {
      src.tokens[index]
    }

    method Advance() returns (t: Token)
      requires Valid()
      modifies this`index
      ensures Valid() && t == src.tokens[old(index)]
      ensures index == if t.kind.Eof? then old(index) else old(index) + 1
    {
      t := Current();
      if !t.kind.Eof? {
        index := index + 1;
      }
    }

    method Consume(value: string) returns (found: bool)
      requires Valid() && value != ""
      modifies this`index
      ensures Valid() && (found <==> src.tokens[old(index)].value == value)
      ensures index == if found then old(index) + 1 else old(index)
    {
      if Current().value != value {
        return false;
      }
      index := index + 1;
      return true;
    }

    method Expect(value: string) returns (error: Option<Error>)
      requires Valid() && value != ""
      modifies this`index
      ensures Valid()
      ensures var t := src.tokens[old(index)];
        if t.value == value then error == None && index == old(index) + 1
        else error == Some(Error(Expected(value), t.offset)) && index == old(index)
    {
      var token := Current();
      if token.value != value {
        return Some(Error(Expected(value), token.offset));
      }
      index := index + 1;
      return None;
    }

    // ---------- Expressions ----------

    method Parse() returns (r: Result<Expression, Error>)
      requires Valid() && index == 0
      modifies this`index
      ensures r == ParseAll(src)
    {
      var expression := ParseConditional();
      if expression.Err? {
        return expression;
      }
      var trailing := Current();
      if !trailing.kind.Eof? {
        if trailing.value == "." {
          return Err(Error(MemberAccess, trailing.offset));
        }
        if trailing.value == "(" {
          return Err(Error(FunctionCall, trailing.offset));
        }
        return Err(Error(Unexpected(trailing.value), trailing.offset));
      }
      return expression;
    }

    method ParseConditional() returns (r: Result<Expression, Error>)
      requires Valid()
      modifies this`index
      ensures Valid() && Agrees(r, CelParsing.ParseConditional(src, old(index)))
      decreases |src.tokens| - index, 10
    {
      var condition := ParseBinary(1);
      if condition.Err? {
        return condition;
      }
      var asked := Consume("?");
      if !asked {
        return condition;
      }
      var whenTrue := ParseConditional();
      if whenTrue.Err? {
        return whenTrue;
      }
      var error := Expect(":");
      if error.Some? {
        return Err(error.value);
      }
      var whenFalse := ParseConditional();
      if whenFalse.Err? {
        return whenFalse;
      }
      return Ok(Conditional(condition.value, whenTrue.value, whenFalse.value, condition.value.offset));
    }

    /** parseLogicalOr down to parseMultiplicative: the operand of each level is parsed by the next. */
    method ParseBinary(level: nat) returns (r: Result<Expression, Error>)
      requires Valid() && 1 <= level <= 7
      modifies this`index
      ensures Valid() && Agrees(r, CelParsing.ParseBinary(src, level, old(index)))
      decreases |src.tokens| - index, 9 - level
    {
      if level == 7 {
        r := ParseUnary();
        return;
      }
      r := ParseBinary(level + 1);
      if r.Err? {
        return;
      }
      while Operates(Current(), level)
        invariant Valid() && r.Ok? && index > old(index)
        invariant CelParsing.ParseBinary(src, level, old(index)) == ParseRest(src, level, r.value, index)
        decreases |src.tokens| - index
      {
        var operator := Advance();
        var right := ParseBinary(level + 1);
        if right.Err? {
          return right;
        }
        r := Ok(Binary(operator.value, r.value, right.value, operator.offset));
      }
    }

    method ParseUnary() returns (r: Result<Expression, Error>)
      requires Valid()
      modifies this`index
      ensures Valid() && Agrees(r, CelParsing.ParseUnary(src, old(index)))
      decreases |src.tokens| - index, 1
    {
      var token := Current();
      if token.kind.Operator? && token.value in SIGNS {
        var _ := Advance();
        var operand := ParseUnary();
        if operand.Err? {
          return operand;
        }
        return Ok(Unary(token.value, operand.value, token.offset));
      }
      r := ParsePrimary();
    }

    method ParsePrimary() returns (r: Result<Expression, Error>)
      requires Valid()
      modifies this`index
      ensures Valid() && Agrees(r, CelParsing.ParsePrimary(src, old(index)))
      decreases |src.tokens| - index, 0
    {
      var token := Advance();
      if token.kind.Number? {
        return if src.safe(token.value) then Ok(Literal(Digits(token.value), token.offset)) else Err(Error(UnsafeNumber, token.offset));
      }
      if token.kind.String? {
        return Ok(Literal(Text(token.value), token.offset));
      }
      if token.kind.Identifier? {
        if Current().value == "(" {
          return Err(Error(FunctionCall, Current().offset));
        }
        return ParseName(src, token);
      }
      if token.value == "(" {
        r := ParseConditional();
        if r.Ok? {
          var error := Expect(")");
          if error.Some? {
            return Err(error.value);
          }
        }
        return;
      }
      if token.value == "[" {
        r := ParseArray(token.offset);
        return;
      }
      if token.value == "{" {
        r := ParseObject(token.offset);
        return;
      }
      return Err(Error(Unexpected(token.value), token.offset));
    }

    method ParseArray(offset: nat) returns (r: Result<Expression, Error>)
      requires Valid()
      modifies this`index
      ensures Valid()
      ensures var l := ParseElements(src, [], old(index));
        if src.tokens[old(index)].value == "]" then r == Ok(Array([], offset)) && index == old(index) + 1
        else if l.Ok? then r == Ok(Array(l.value.0, offset)) && index == l.value.1
        else r == Err(l.error)
      decreases |src.tokens| - index, 11
    {
      hide CelParsing.ParseConditional, CelParsing.ParseBinary, CelParsing.ParsePrimary;
      var elements: seq<Expression> := [];
      var empty := Consume("]");
      if empty {
        return Ok(Array([], offset));
      }
      var more := true;
      while more
        invariant Valid() && index >= old(index)
        invariant more ==> ParseElements(src, [], old(index)) == ParseElements(src, elements, index)
        invariant !more ==> index > old(index) && src.tokens[index].value != ","
        invariant !more ==>
          ParseElements(src, [], old(index)) ==
          if src.tokens[index].value == "]" then Ok((elements, index + 1)) else Err(Error(Expected("]"), src.tokens[index].offset))
        decreases |src.tokens| - index, more
      {
        var element := ParseConditional();
        if element.Err? {
          return element;
        }
        elements := elements + [element.value];
        more := Consume(",");
      }
      var error := Expect("]");
      if error.Some? {
        return Err(error.value);
      }
      return Ok(Array(elements, offset));
    }

    method ParseObject(offset: nat) returns (r: Result<Expression, Error>)
      requires Valid()
      modifies this`index
      ensures Valid()
      ensures var l := ParseEntries(src, [], old(index));
        if src.tokens[old(index)].value == "}" then r == Ok(Object([], offset)) && index == old(index) + 1
        else if l.Ok? then r == Ok(Object(l.value.0, offset)) && index == l.value.1
        else r == Err(l.error)
      decreases |src.tokens| - index, 11
    {
      hide CelParsing.ParseConditional, CelParsing.ParseBinary, CelParsing.ParsePrimary;
      var entries: seq<Entry> := [];
      var keys: set<string> := {};
      var empty := Consume("}");
      if empty {
        return Ok(Object([], offset));
      }
      var more := true;
      while more
        invariant Valid() && index >= old(index)
        invariant forall key :: key in keys <==> HasKey(entries, key)
        invariant more ==> ParseEntries(src, [], old(index)) == ParseEntries(src, entries, index)
        invariant !more ==> index > old(index) && src.tokens[index].value != ","
        invariant !more ==>
          ParseEntries(src, [], old(index)) ==
          if src.tokens[index].value == "}" then Ok((entries, index + 1)) else Err(Error(Expected("}"), src.tokens[index].offset))
        decreases |src.tokens| - index, more
      {
        var key := Advance();
        if !key.kind.String? {
          return Err(Error(KeyNotString, key.offset));
        }
        if key.value in keys {
          return Err(Error(DuplicateKey(key.value), key.offset));
        }
        keys := keys + {key.value};
        var error := Expect(":");
        if error.Some? {
          return Err(error.value);
        }
        var value := ParseConditional();
        if value.Err? {
          return Err(value.error);
        }
        HasKeySnoc(entries, Entry(key.value, value.value, key.offset));
        entries := entries + [Entry(key.value, value.value, key.offset)];
        more := Consume(",");
      }
      var error := Expect("}");
      if error.Some? {
        return Err(error.value);
      }
      return Ok(Object(entries, offset));
    }
  }

  lemma HasKeySnoc(entries: seq<Entry>, one: Entry)
    ensures forall key :: HasKey(entries + [one], key) <==> HasKey(entries, key) || key == one.key
  {
    forall key
      ensures HasKey(entries + [one], key) <==> HasKey(entries, key) || key == one.key
    {
      var all := entries + [one];
      if HasKey(entries, key) {
        var k :| 0 <= k < |entries| && entries[k].key == key;
        assert all[k].key == key;
      }
      assert all[|entries|].key == one.key;
    }
  }
}
