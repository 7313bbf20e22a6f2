/** What an expression means, given apart from the evaluator: one rule per construct for the value it has, and one
    for each way it can fail. The evaluator computes exactly this. */
module CelMeaning {
  import opened Wrappers
  import opened CelParsing
  import opened CelEvaluation

  // ---------- Values of the operators ----------

  /** -1, 0 or 1: how the first of two numbers or two strings stands to the second. */
  function Order<N>(m: Arithmetic<N>, x: Json<N>, y: Json<N>): int
    requires Comparable(x, y)
  {
    if Less(m, x, y) then -1 else if Less(m, y, x) then 1 else 0
  }

  predicate Comparable<N>(x: Json<N>, y: Json<N>) { (x.Num? && y.Num?) || (x.Str? && y.Str?) }

  predicate Less<N>(m: Arithmetic<N>, x: Json<N>, y: Json<N>)
    requires Comparable(x, y)
  {
    if x.Num? then m.less(x.n, y.n) else StringLess(x.s, y.s)
  }

  predicate IsNumber<N(==)>(m: Arithmetic<N>, j: Json<N>, n: N) { m.safe(n) && j == Num(n) }

  predicate UnaryRule<N(==)>(m: Arithmetic<N>, operator: string, x: Json<N>, j: Json<N>) {
    || (operator == "!" && x == Bool(true) && j == Bool(false))
    || (operator == "!" && x == Bool(false) && j == Bool(true))
    || (operator == "-" && x.Num? && IsNumber(m, j, m.neg(x.n)))
    || (operator != "!" && operator != "-" && x.Num? && IsNumber(m, j, x.n))
  }

  predicate BinaryRule<N(==)>(m: Arithmetic<N>, operator: string, x: Json<N>, y: Json<N>, j: Json<N>) {
    || (operator == "==" && j == Bool(JsonEquals(x, y)))
    || (operator == "!=" && j == Bool(!JsonEquals(x, y)))
    || (operator == "+" && x.Str? && y.Str? && j == Str(x.s + y.s))
    || (operator == "+" && x.Num? && y.Num? && IsNumber(m, j, m.add(x.n, y.n)))
    || (operator == "-" && x.Num? && y.Num? && IsNumber(m, j, m.sub(x.n, y.n)))
    || (operator == "*" && x.Num? && y.Num? && IsNumber(m, j, m.mul(x.n, y.n)))
    || (operator == "/" && x.Num? && y.Num? && IsNumber(m, j, m.div(x.n, y.n)))
    || (operator == "%" && x.Num? && y.Num? && IsNumber(m, j, m.rem(x.n, y.n)))
    || (operator == "<" && Comparable(x, y) && j == Bool(Order(m, x, y) < 0))
    || (operator == "<=" && Comparable(x, y) && j == Bool(Order(m, x, y) <= 0))
    || (operator == ">" && Comparable(x, y) && j == Bool(Order(m, x, y) > 0))
    || (operator == ">=" && Comparable(x, y) && j == Bool(Order(m, x, y) >= 0))
  }

  // ---------- Values of expressions ----------

  predicate LiteralRule<N(==)>(m: Arithmetic<N>, l: Value, j: Json<N>) {
    match l
    case Text(s) => j == Str(s)
    case Digits(text) => j == Num(m.number(text))
    case Boolean(b) => j == Bool(b)
    case NullValue => j == Null
  }

  /** The expression has value j for this input. */
  ghost predicate Yields<N(!new)>(m: Arithmetic<N>, e: Expression, input: Json<N>, j: Json<N>)
    decreases e
  {
    match e
    case Literal(value, _) => LiteralRule(m, value, j)
    case Input(_) => j == input
    case Array(elements, _) =>
      && j.Arr? && |j.items| == |elements|
      && forall k :: 0 <= k < |elements| ==> Yields(m, elements[k], input, j.items[k])
    case Object(entries, _) =>
      && j.Obj? && |j.members| == |entries|
      && forall k :: 0 <= k < |entries| ==>
          j.members[k].key == entries[k].key && Yields(m, entries[k].value, input, j.members[k].value)
    case Unary(operator, operand, _) => exists x :: Yields(m, operand, input, x) && UnaryRule(m, operator, x, j)
    case Binary(operator, left, right, _) =>
      if operator == "&&" then
        || (j == Bool(false) && Yields(m, left, input, Bool(false)))
        || (j.Bool? && Yields(m, left, input, Bool(true)) && Yields(m, right, input, j))
      else if operator == "||" then
        || (j == Bool(true) && Yields(m, left, input, Bool(true)))
        || (j.Bool? && Yields(m, left, input, Bool(false)) && Yields(m, right, input, j))
      else
        exists x, y :: Yields(m, left, input, x) && Yields(m, right, input, y) && BinaryRule(m, operator, x, y, j)
    case Conditional(condition, whenTrue, whenFalse, _) =>
      || (Yields(m, condition, input, Bool(true)) && Yields(m, whenTrue, input, j))
      || (Yields(m, condition, input, Bool(false)) && Yields(m, whenFalse, input, j))
  }

  ghost predicate Succeeds<N(!new)>(m: Arithmetic<N>, e: Expression, input: Json<N>) {
    exists j :: Yields(m, e, input, j)
  }

  // ---------- Failures ----------

  /** A boolean is needed and something else is there. */
  ghost predicate NotBoolean<N(!new)>(m: Arithmetic<N>, e: Expression, input: Json<N>) {
    exists x :: Yields(m, e, input, x) && !x.Bool?
  }

  predicate UnaryFails<N>(m: Arithmetic<N>, operator: string, x: Json<N>, trouble: Trouble) {
    if operator == "!" then !x.Bool? && trouble == NeedsBoolean
    else if !x.Num? then trouble == NeedsNumber
    else !m.safe(if operator == "-" then m.neg(x.n) else x.n) && trouble == NotSafe
  }

  /** The left operand is looked at first; a result that is not safe is the whole expression's trouble. */
  predicate BinaryFails<N>(m: Arithmetic<N>, e: Expression, x: Json<N>, y: Json<N>, error: EvalError)
    requires e.Binary?
  {
    if e.operator in {"==", "!="} then false
    else if e.operator in {"<", "<=", ">", ">="} then !Comparable(x, y) && error == EvalError(NotComparable, e.offset)
    else if e.operator !in {"+", "-", "*", "/", "%"} then error == EvalError(UnknownOperator, e.offset)
    else if e.operator == "+" && x.Str? && y.Str? then false
    else if !x.Num? then error == EvalError(NeedsNumber, e.left.offset)
    else if !y.Num? then error == EvalError(NeedsNumber, e.right.offset)
    else
      && error == EvalError(NotSafe, e.offset)
      && (e.operator == "+" ==> !m.safe(m.add(x.n, y.n))) && (e.operator == "-" ==> !m.safe(m.sub(x.n, y.n)))
      && (e.operator == "*" ==> !m.safe(m.mul(x.n, y.n))) && (e.operator == "/" ==> !m.safe(m.div(x.n, y.n)))
      && (e.operator == "%" ==> !m.safe(m.rem(x.n, y.n)))
  }

  /** The expression fails with this error: that of the first part, from left to right, that fails. */
  ghost predicate Fails<N(!new)>(m: Arithmetic<N>, e: Expression, input: Json<N>, error: EvalError)
    decreases e
  {
    match e
    case Literal(_, _) => false
    case Input(_) => false
    case Array(elements, _) =>
      exists k :: 0 <= k < |elements| && Fails(m, elements[k], input, error)
        && forall i :: 0 <= i < k ==> Succeeds(m, elements[i], input)
    case Object(entries, _) =>
      exists k :: 0 <= k < |entries| && Fails(m, entries[k].value, input, error)
        && forall i :: 0 <= i < k ==> Succeeds(m, entries[i].value, input)
    case Unary(operator, operand, offset) =>
      || Fails(m, operand, input, error)
      || (error.offset == offset && exists x :: Yields(m, operand, input, x) && UnaryFails(m, operator, x, error.trouble))
    case Binary(operator, left, right, _) =>
      || Fails(m, left, input, error)
      || (if operator == "&&" || operator == "||" then
            || (NotBoolean(m, left, input) && error == EvalError(NeedsBoolean, left.offset))
            || (Yields(m, left, input, Bool(operator == "&&"))
                && (Fails(m, right, input, error)
                    || (NotBoolean(m, right, input) && error == EvalError(NeedsBoolean, right.offset))))
          else
            || (Succeeds(m, left, input) && Fails(m, right, input, error))
            || exists x, y :: Yields(m, left, input, x) && Yields(m, right, input, y) && BinaryFails(m, e, x, y, error))
    case Conditional(condition, whenTrue, whenFalse, _) =>
      || Fails(m, condition, input, error)
      || (NotBoolean(m, condition, input) && error == EvalError(NeedsBoolean, condition.offset))
      || (Yields(m, condition, input, Bool(true)) && Fails(m, whenTrue, input, error))
      || (Yields(m, condition, input, Bool(false)) && Fails(m, whenFalse, input, error))
  }

  // ---------- The evaluator agrees ----------

  /** The evaluator finds the one value or the one error of the expression. */
  ghost predicate Agrees<N(!new)>(m: Arithmetic<N>, e: Expression, input: Json<N>) {
    && (forall j :: Yields(m, e, input, j) <==> Evaluate(m, e, input) == Ok(j))
    && (forall error :: Fails(m, e, input, error) <==> Evaluate(m, e, input) == Err(error))
  }

  lemma {:induction false} ElementAt<N>(m: Arithmetic<N>, e: Expression, k: nat, input: Json<N>, i: nat)
    requires e.Array? && k <= i < |e.elements| && EvaluateElements(m, e, k, input).Ok?
    ensures Evaluate(m, e.elements[i], input) == Ok(EvaluateElements(m, e, k, input).value[i - k])
    decreases |e.elements| - k
  {
    hide Evaluate;
    if k < i {
      ElementAt(m, e, k + 1, input, i);
    }
  }

  /** The first one that fails decides. */
  lemma {:induction false} ElementFailing<N>(m: Arithmetic<N>, e: Expression, k: nat, input: Json<N>) returns (f: nat)
    requires e.Array? && k <= |e.elements| && EvaluateElements(m, e, k, input).Err?
    ensures k <= f < |e.elements| && Evaluate(m, e.elements[f], input) == Err(EvaluateElements(m, e, k, input).error)
    ensures forall i :: k <= i < f ==> Evaluate(m, e.elements[i], input).Ok?
    decreases |e.elements| - k
  {
    hide Evaluate;
    f := k;
    if Evaluate(m, e.elements[k], input).Ok? {
      f := ElementFailing(m, e, k + 1, input);
    }
  }

  lemma {:induction false} EntryAt<N>(m: Arithmetic<N>, e: Expression, k: nat, input: Json<N>, i: nat)
    requires e.Object? && k <= i < |e.entries| && EvaluateEntries(m, e, k, input).Ok?
    ensures Evaluate(m, e.entries[i].value, input) == Ok(EvaluateEntries(m, e, k, input).value[i - k].value)
    decreases |e.entries| - k
  {
    hide Evaluate;
    if k < i {
      EntryAt(m, e, k + 1, input, i);
    }
  }

  /** The first one that fails decides. */
  lemma {:induction false} EntryFailing<N>(m: Arithmetic<N>, e: Expression, k: nat, input: Json<N>) returns (f: nat)
    requires e.Object? && k <= |e.entries| && EvaluateEntries(m, e, k, input).Err?
    ensures k <= f < |e.entries| && Evaluate(m, e.entries[f].value, input) == Err(EvaluateEntries(m, e, k, input).error)
    ensures forall i :: k <= i < f ==> Evaluate(m, e.entries[i].value, input).Ok?
    decreases |e.entries| - k
  {
    hide Evaluate;
    f := k;
    if Evaluate(m, e.entries[k].value, input).Ok? {
      f := EntryFailing(m, e, k + 1, input);
    }
  }

  lemma OutcomeIs<N(!new)>(m: Arithmetic<N>, e: Expression, input: Json<N>)
    requires Agrees(m, e, input)
    ensures Succeeds(m, e, input) <==> Evaluate(m, e, input).Ok?
    ensures NotBoolean(m, e, input) <==> Evaluate(m, e, input).Ok? && !Evaluate(m, e, input).value.Bool?
  {
    hide Evaluate, Yields, Fails;
    if Evaluate(m, e, input).Ok? {
      assert Yields(m, e, input, Evaluate(m, e, input).value);
    }
  }

  // The rules for one construct each, and what the evaluator does for it.

  lemma ArrayRules<N(!new)>(m: Arithmetic<N>, e: Expression, input: Json<N>, j: Json<N>, error: EvalError)
    requires e.Array?
    ensures Yields(m, e, input, j) <==>
      && j.Arr? && |j.items| == |e.elements|
      && forall k :: 0 <= k < |e.elements| ==> Yields(m, e.elements[k], input, j.items[k])
    ensures Fails(m, e, input, error) <==>
      exists k :: 0 <= k < |e.elements| && Fails(m, e.elements[k], input, error)
        && forall i :: 0 <= i < k ==> Succeeds(m, e.elements[i], input)
    ensures Evaluate(m, e, input) ==
      var l := EvaluateElements(m, e, 0, input); if l.Err? then Err(l.error) else Ok(Arr(l.value))
  {
    hide Succeeds;
  }

  lemma ObjectRules<N(!new)>(m: Arithmetic<N>, e: Expression, input: Json<N>, j: Json<N>, error: EvalError)
    requires e.Object?
    ensures Yields(m, e, input, j) <==>
      && j.Obj? && |j.members| == |e.entries|
      && forall k :: 0 <= k < |e.entries| ==>
          j.members[k].key == e.entries[k].key && Yields(m, e.entries[k].value, input, j.members[k].value)
    ensures Fails(m, e, input, error) <==>
      exists k :: 0 <= k < |e.entries| && Fails(m, e.entries[k].value, input, error)
        && forall i :: 0 <= i < k ==> Succeeds(m, e.entries[i].value, input)
    ensures Evaluate(m, e, input) ==
      var l := EvaluateEntries(m, e, 0, input); if l.Err? then Err(l.error) else Ok(Obj(l.value))
  {
    hide Succeeds;
  }

  lemma ArrayAgrees<N(!new)>(m: Arithmetic<N>, e: Expression, input: Json<N>)
    requires e.Array? && forall k :: 0 <= k < |e.elements| ==> Agrees(m, e.elements[k], input)
    ensures Agrees(m, e, input)
  {
    hide Evaluate, Yields, Fails;
    forall j
      ensures Yields(m, e, input, j) <==> Evaluate(m, e, input) == Ok(j)
    {
      ArrayValue(m, e, input, j);
    }
    forall error
      ensures Fails(m, e, input, error) <==> Evaluate(m, e, input) == Err(error)
    {
      ArrayError(m, e, input, error);
    }
  }

  lemma ArrayValue<N(!new)>(m: Arithmetic<N>, e: Expression, input: Json<N>, j: Json<N>)
    requires e.Array? && forall k :: 0 <= k < |e.elements| ==> Agrees(m, e.elements[k], input)
    ensures Yields(m, e, input, j) <==> Evaluate(m, e, input) == Ok(j)
  {
    hide Evaluate, Yields, Fails, EvaluateElements;
    ArrayRules(m, e, input, j, EvalError(NotSafe, 0));
    var l := EvaluateElements(m, e, 0, input);
    if l.Ok? {
      forall k | 0 <= k < |e.elements|
        ensures Evaluate(m, e.elements[k], input) == Ok(l.value[k])
      {
        ElementAt(m, e, 0, input, k);
      }
      if Yields(m, e, input, j) {
        forall k | 0 <= k < |e.elements|
          ensures j.items[k] == l.value[k]
        {
          assert Yields(m, e.elements[k], input, j.items[k]);
        }
        assert j.items == l.value;
      }
    } else {
      var f := ElementFailing(m, e, 0, input);
    }
  }

  lemma ArrayError<N(!new)>(m: Arithmetic<N>, e: Expression, input: Json<N>, error: EvalError)
    requires e.Array? && forall k :: 0 <= k < |e.elements| ==> Agrees(m, e.elements[k], input)
    ensures Fails(m, e, input, error) <==> Evaluate(m, e, input) == Err(error)
  {
    hide Evaluate, Yields, Fails, EvaluateElements, Succeeds, NotBoolean;
    ArrayRules(m, e, input, Null, error);
    forall k | 0 <= k < |e.elements|
      ensures Succeeds(m, e.elements[k], input) <==> Evaluate(m, e.elements[k], input).Ok?
      ensures Fails(m, e.elements[k], input, error) <==> Evaluate(m, e.elements[k], input) == Err(error)
    {
      OutcomeIs(m, e.elements[k], input);
    }
    var l := EvaluateElements(m, e, 0, input);
    if Fails(m, e, input, error) {
      var k :| 0 <= k < |e.elements| && Fails(m, e.elements[k], input, error)
        && forall i :: 0 <= i < k ==> Succeeds(m, e.elements[i], input);
      if l.Ok? {
        ElementAt(m, e, 0, input, k);
      } else {
        var f := ElementFailing(m, e, 0, input);
        assert f == k;
      }
    } else if l.Err? {
      var f := ElementFailing(m, e, 0, input);
    }
  }

  lemma ObjectAgrees<N(!new)>(m: Arithmetic<N>, e: Expression, input: Json<N>)
    requires e.Object? && forall k :: 0 <= k < |e.entries| ==> Agrees(m, e.entries[k].value, input)
    ensures Agrees(m, e, input)
  {
    hide Evaluate, Yields, Fails;
    forall j
      ensures Yields(m, e, input, j) <==> Evaluate(m, e, input) == Ok(j)
    {
      ObjectValue(m, e, input, j);
    }
    forall error
      ensures Fails(m, e, input, error) <==> Evaluate(m, e, input) == Err(error)
    {
      ObjectError(m, e, input, error);
    }
  }

  lemma ObjectValue<N(!new)>(m: Arithmetic<N>, e: Expression, input: Json<N>, j: Json<N>)
    requires e.Object? && forall k :: 0 <= k < |e.entries| ==> Agrees(m, e.entries[k].value, input)
    ensures Yields(m, e, input, j) <==> Evaluate(m, e, input) == Ok(j)
  {
    hide Evaluate, Yields, Fails, EvaluateEntries;
    ObjectRules(m, e, input, j, EvalError(NotSafe, 0));
    var l := EvaluateEntries(m, e, 0, input);
    if l.Ok? {
      forall k | 0 <= k < |e.entries|
        ensures Evaluate(m, e.entries[k].value, input) == Ok(l.value[k].value)
      {
        EntryAt(m, e, 0, input, k);
      }
      if Yields(m, e, input, j) {
        forall k | 0 <= k < |e.entries|
          ensures j.members[k] == l.value[k]
        {
          assert Yields(m, e.entries[k].value, input, j.members[k].value);
        }
        assert j.members == l.value;
      }
    } else {
      var f := EntryFailing(m, e, 0, input);
    }
  }

  lemma ObjectError<N(!new)>(m: Arithmetic<N>, e: Expression, input: Json<N>, error: EvalError)
    requires e.Object? && forall k :: 0 <= k < |e.entries| ==> Agrees(m, e.entries[k].value, input)
    ensures Fails(m, e, input, error) <==> Evaluate(m, e, input) == Err(error)
  {
    hide Evaluate, Yields, Fails, EvaluateEntries, Succeeds, NotBoolean;
    ObjectRules(m, e, input, Null, error);
    forall k | 0 <= k < |e.entries|
      ensures Succeeds(m, e.entries[k].value, input) <==> Evaluate(m, e.entries[k].value, input).Ok?
      ensures Fails(m, e.entries[k].value, input, error) <==> Evaluate(m, e.entries[k].value, input) == Err(error)
    {
      OutcomeIs(m, e.entries[k].value, input);
    }
    var l := EvaluateEntries(m, e, 0, input);
    if Fails(m, e, input, error) {
      var k :| 0 <= k < |e.entries| && Fails(m, e.entries[k].value, input, error)
        && forall i :: 0 <= i < k ==> Succeeds(m, e.entries[i].value, input);
      if l.Ok? {
        EntryAt(m, e, 0, input, k);
      } else {
        var f := EntryFailing(m, e, 0, input);
        assert f == k;
      }
    } else if l.Err? {
      var f := EntryFailing(m, e, 0, input);
    }
  }

  lemma UnaryIs<N>(m: Arithmetic<N>, operator: string, x: Json<N>, offset: nat)
    ensures forall j :: UnaryRule(m, operator, x, j) <==> EvaluateUnary(m, operator, x, offset) == Ok(j)
    ensures forall error: EvalError :: error.offset == offset && UnaryFails(m, operator, x, error.trouble) <==>
        EvaluateUnary(m, operator, x, offset) == Err(error)
  {
  }

  lemma ComparisonIs<N>(m: Arithmetic<N>, e: Expression, x: Json<N>, y: Json<N>, j: Json<N>, error: EvalError)
    requires e.Binary? && e.operator in {"<", "<=", ">", ">="}
    ensures Operate(m, e, x, y) == Compare(m, x, y, e.operator, e.offset)
    ensures BinaryRule(m, e.operator, x, y, j) <==> Compare(m, x, y, e.operator, e.offset) == Ok(j)
    ensures BinaryFails(m, e, x, y, error) <==> Compare(m, x, y, e.operator, e.offset) == Err(error)
  {
    hide JsonEquals, StringLess, Compare, Order, Less;
    assert e.operator in LEVELS[4];
    CompareIs(m, x, y, e.operator, e.offset);
  }

  lemma CompareIs<N>(m: Arithmetic<N>, x: Json<N>, y: Json<N>, operator: string, offset: nat)
    requires operator in {"<", "<=", ">", ">="}
    ensures Compare(m, x, y, operator, offset) ==
      if !Comparable(x, y) then Err(EvalError(NotComparable, offset))
      else if operator == "<" then Ok(Bool(Order(m, x, y) < 0))
      else if operator == "<=" then Ok(Bool(Order(m, x, y) <= 0))
      else if operator == ">" then Ok(Bool(Order(m, x, y) > 0))
      else Ok(Bool(Order(m, x, y) >= 0))
  {
    hide StringLess;
  }

  lemma ArithmeticIs<N>(m: Arithmetic<N>, e: Expression, x: Json<N>, y: Json<N>, j: Json<N>, error: EvalError)
    requires e.Binary? && e.operator in {"+", "-", "*", "/", "%"}
    ensures BinaryRule(m, e.operator, x, y, j) <==> Operate(m, e, x, y) == Ok(j)
    ensures BinaryFails(m, e, x, y, error) <==> Operate(m, e, x, y) == Err(error)
  {
    hide JsonEquals, StringLess, Compare, Less, Order;
  }

  lemma OperatorIs<N>(m: Arithmetic<N>, e: Expression, x: Json<N>, y: Json<N>, j: Json<N>, error: EvalError)
    requires e.Binary? && e.operator != "&&" && e.operator != "||"
    ensures BinaryRule(m, e.operator, x, y, j) <==> Operate(m, e, x, y) == Ok(j)
    ensures BinaryFails(m, e, x, y, error) <==> Operate(m, e, x, y) == Err(error)
  {
    hide JsonEquals, StringLess, Compare, Less, Order;
    if e.operator in {"<", "<=", ">", ">="} {
      ComparisonIs(m, e, x, y, j, error);
    } else if e.operator in {"+", "-", "*", "/", "%"} {
      ArithmeticIs(m, e, x, y, j, error);
    }
  }

  lemma OperationRules<N(!new)>(m: Arithmetic<N>, e: Expression, input: Json<N>, j: Json<N>, error: EvalError)
    requires e.Binary? && e.operator != "&&" && e.operator != "||"
    ensures Yields(m, e, input, j) <==>
      exists x, y :: Yields(m, e.left, input, x) && Yields(m, e.right, input, y) && BinaryRule(m, e.operator, x, y, j)
    ensures Fails(m, e, input, error) <==>
      || Fails(m, e.left, input, error) || (Succeeds(m, e.left, input) && Fails(m, e.right, input, error))
      || exists x, y :: Yields(m, e.left, input, x) && Yields(m, e.right, input, y) && BinaryFails(m, e, x, y, error)
    ensures Evaluate(m, e, input) ==
      var l, r := Evaluate(m, e.left, input), Evaluate(m, e.right, input);
      if l.Err? then l else if r.Err? then r else Operate(m, e, l.value, r.value)
  {
    hide BinaryRule, BinaryFails, Operate, Succeeds;
    OperationYields(m, e, input, j);
  }

  lemma OperationYields<N(!new)>(m: Arithmetic<N>, e: Expression, input: Json<N>, j: Json<N>)
    requires e.Binary? && e.operator != "&&" && e.operator != "||"
    ensures Yields(m, e, input, j) <==>
      exists x, y :: Yields(m, e.left, input, x) && Yields(m, e.right, input, y) && BinaryRule(m, e.operator, x, y, j)
  {
    hide BinaryRule, BinaryFails, UnaryRule, LiteralRule, Operate, Succeeds, Fails, Evaluate;
  }

  lemma OperationAgrees<N(!new)>(m: Arithmetic<N>, e: Expression, input: Json<N>)
    requires e.Binary? && e.operator != "&&" && e.operator != "||"
    requires Agrees(m, e.left, input) && Agrees(m, e.right, input)
    ensures Agrees(m, e, input)
  {
    hide Operate, BinaryRule, BinaryFails, Succeeds, NotBoolean, Evaluate, Yields, Fails;
    OutcomeIs(m, e.left, input);
    var l, r := Evaluate(m, e.left, input), Evaluate(m, e.right, input);
    if l.Ok? && r.Ok? {
      assert Yields(m, e.left, input, l.value) && Yields(m, e.right, input, r.value);
    }
    forall j
      ensures Yields(m, e, input, j) <==> Evaluate(m, e, input) == Ok(j)
    {
      OperationRules(m, e, input, j, EvalError(NotSafe, 0));
      if l.Ok? && r.Ok? {
        OperatorIs(m, e, l.value, r.value, j, EvalError(NotSafe, 0));
      }
    }
    forall error
      ensures Fails(m, e, input, error) <==> Evaluate(m, e, input) == Err(error)
    {
      OperationRules(m, e, input, Null, error);
      if l.Ok? && r.Ok? {
        OperatorIs(m, e, l.value, r.value, Null, error);
      }
    }
  }

  lemma LogicRules<N(!new)>(m: Arithmetic<N>, e: Expression, input: Json<N>, j: Json<N>, error: EvalError)
    requires e.Binary? && (e.operator == "&&" || e.operator == "||")
    ensures var both := e.operator == "&&";
      Yields(m, e, input, j) <==>
      || (j == Bool(!both) && Yields(m, e.left, input, Bool(!both)))
      || (j.Bool? && Yields(m, e.left, input, Bool(both)) && Yields(m, e.right, input, j))
    ensures Fails(m, e, input, error) <==>
      || Fails(m, e.left, input, error)
      || (NotBoolean(m, e.left, input) && error == EvalError(NeedsBoolean, e.left.offset))
      || (Yields(m, e.left, input, Bool(e.operator == "&&"))
          && (Fails(m, e.right, input, error)
              || (NotBoolean(m, e.right, input) && error == EvalError(NeedsBoolean, e.right.offset))))
    ensures Evaluate(m, e, input) ==
      var l, r := Evaluate(m, e.left, input), Evaluate(m, e.right, input);
      if l.Err? then l
      else if !l.value.Bool? then Err(EvalError(NeedsBoolean, e.left.offset))
      else if l.value.b == (e.operator == "||") then l
      else if r.Err? then r else AsBool(r.value, e.right.offset)
  {
    hide BinaryRule, BinaryFails, Operate, Succeeds, NotBoolean;
    assert "&&" != "||" by {
      assert "&&"[0] != "||"[0];
    }
  }

  lemma LogicAgrees<N(!new)>(m: Arithmetic<N>, e: Expression, input: Json<N>)
    requires e.Binary? && (e.operator == "&&" || e.operator == "||")
    requires Agrees(m, e.left, input) && Agrees(m, e.right, input)
    ensures Agrees(m, e, input)
  {
    hide Succeeds, NotBoolean, Evaluate, Yields, Fails;
    OutcomeIs(m, e.left, input);
    OutcomeIs(m, e.right, input);
    assert "&&" != "||" by {
      assert "&&"[0] != "||"[0];
    }
    forall j
      ensures Yields(m, e, input, j) <==> Evaluate(m, e, input) == Ok(j)
    {
      LogicRules(m, e, input, j, EvalError(NotSafe, 0));
    }
    forall error
      ensures Fails(m, e, input, error) <==> Evaluate(m, e, input) == Err(error)
    {
      LogicRules(m, e, input, Null, error);
    }
  }

  lemma UnaryRules<N(!new)>(m: Arithmetic<N>, e: Expression, input: Json<N>, j: Json<N>, error: EvalError)
    requires e.Unary?
    ensures Yields(m, e, input, j) <==> exists x :: Yields(m, e.operand, input, x) && UnaryRule(m, e.operator, x, j)
    ensures Fails(m, e, input, error) <==>
      || Fails(m, e.operand, input, error)
      || (error.offset == e.offset
          && exists x :: Yields(m, e.operand, input, x) && UnaryFails(m, e.operator, x, error.trouble))
    ensures Evaluate(m, e, input) ==
      var x := Evaluate(m, e.operand, input); if x.Err? then x else EvaluateUnary(m, e.operator, x.value, e.offset)
  {
    hide UnaryRule, UnaryFails, EvaluateUnary;
  }

  lemma UnaryAgrees<N(!new)>(m: Arithmetic<N>, e: Expression, input: Json<N>)
    requires e.Unary? && Agrees(m, e.operand, input)
    ensures Agrees(m, e, input)
  {
    hide UnaryRule, UnaryFails, EvaluateUnary, Evaluate, Yields, Fails;
    var x := Evaluate(m, e.operand, input);
    if x.Ok? {
      UnaryIs(m, e.operator, x.value, e.offset);
      assert Yields(m, e.operand, input, x.value);
    }
    forall j
      ensures Yields(m, e, input, j) <==> Evaluate(m, e, input) == Ok(j)
    {
      UnaryRules(m, e, input, j, EvalError(NotSafe, 0));
      assert x.Ok? ==> (UnaryRule(m, e.operator, x.value, j) <==> EvaluateUnary(m, e.operator, x.value, e.offset) == Ok(j));
    }
    forall error
      ensures Fails(m, e, input, error) <==> Evaluate(m, e, input) == Err(error)
    {
      UnaryRules(m, e, input, Null, error);
    }
  }

  lemma ConditionalRules<N(!new)>(m: Arithmetic<N>, e: Expression, input: Json<N>, j: Json<N>, error: EvalError)
    requires e.Conditional?
    ensures Yields(m, e, input, j) <==>
      || (Yields(m, e.condition, input, Bool(true)) && Yields(m, e.whenTrue, input, j))
      || (Yields(m, e.condition, input, Bool(false)) && Yields(m, e.whenFalse, input, j))
    ensures Fails(m, e, input, error) <==>
      || Fails(m, e.condition, input, error)
      || (NotBoolean(m, e.condition, input) && error == EvalError(NeedsBoolean, e.condition.offset))
      || (Yields(m, e.condition, input, Bool(true)) && Fails(m, e.whenTrue, input, error))
      || (Yields(m, e.condition, input, Bool(false)) && Fails(m, e.whenFalse, input, error))
  {
    hide NotBoolean, Evaluate, Yields;
    ConditionalYields(m, e, input, j);
  }

  lemma ConditionalYields<N(!new)>(m: Arithmetic<N>, e: Expression, input: Json<N>, j: Json<N>)
    requires e.Conditional?
    ensures Yields(m, e, input, j) <==>
      || (Yields(m, e.condition, input, Bool(true)) && Yields(m, e.whenTrue, input, j))
      || (Yields(m, e.condition, input, Bool(false)) && Yields(m, e.whenFalse, input, j))
  {
    hide NotBoolean, Evaluate, Fails, BinaryRule, UnaryRule, LiteralRule;
  }

  lemma ConditionalValue<N>(m: Arithmetic<N>, e: Expression, input: Json<N>)
    requires e.Conditional?
    ensures Evaluate(m, e, input) ==
      var c := Evaluate(m, e.condition, input);
      if c.Err? then c
      else if !c.value.Bool? then Err(EvalError(NeedsBoolean, e.condition.offset))
      else if c.value.b then Evaluate(m, e.whenTrue, input) else Evaluate(m, e.whenFalse, input)
  {
  }

  lemma ConditionalAgrees<N(!new)>(m: Arithmetic<N>, e: Expression, input: Json<N>)
    requires e.Conditional? && Agrees(m, e.condition, input) && Agrees(m, e.whenTrue, input) && Agrees(m, e.whenFalse, input)
    ensures Agrees(m, e, input)
  {
    hide NotBoolean, Succeeds, Evaluate, Yields, Fails;
    OutcomeIs(m, e.condition, input);
    ConditionalValue(m, e, input);
    forall j
      ensures Yields(m, e, input, j) <==> Evaluate(m, e, input) == Ok(j)
    {
      ConditionalRules(m, e, input, j, EvalError(NotSafe, 0));
    }
    forall error
      ensures Fails(m, e, input, error) <==> Evaluate(m, e, input) == Err(error)
    {
      ConditionalRules(m, e, input, Null, error);
    }
  }

  /** The evaluator computes the meaning: its value is the one the rules give the expression, and its error the one
      they give; every expression has exactly one of the two. */
  lemma {:induction false} EvaluateIsTheMeaning<N(!new)>(m: Arithmetic<N>, e: Expression, input: Json<N>)
    ensures forall j :: Yields(m, e, input, j) <==> Evaluate(m, e, input) == Ok(j)
    ensures forall error :: Fails(m, e, input, error) <==> Evaluate(m, e, input) == Err(error)
    decreases e
  {
    MeaningOf(m, e, input);
  }

  lemma {:induction false} MeaningOf<N(!new)>(m: Arithmetic<N>, e: Expression, input: Json<N>)
    ensures Agrees(m, e, input)
    decreases e
  {
    hide Agrees;
    match e
    case Literal(_, _) => LeafAgrees(m, e, input);
    case Input(_) => LeafAgrees(m, e, input);
    case Array(elements, _) =>
      forall k | 0 <= k < |elements|
        ensures Agrees(m, elements[k], input)
      {
        MeaningOf(m, elements[k], input);
      }
      ArrayAgrees(m, e, input);
    case Object(entries, _) =>
      forall k | 0 <= k < |entries|
        ensures Agrees(m, entries[k].value, input)
      {
        MeaningOf(m, entries[k].value, input);
      }
      ObjectAgrees(m, e, input);
    case Unary(_, operand, _) =>
      MeaningOf(m, operand, input);
      UnaryAgrees(m, e, input);
    case Binary(operator, left, right, _) =>
      MeaningOf(m, left, input);
      MeaningOf(m, right, input);
      if operator == "&&" || operator == "||" { LogicAgrees(m, e, input); } else { OperationAgrees(m, e, input); }
    case Conditional(condition, whenTrue, whenFalse, _) =>
      MeaningOf(m, condition, input);
      MeaningOf(m, whenTrue, input);
      MeaningOf(m, whenFalse, input);
      ConditionalAgrees(m, e, input);
  }

  lemma LeafAgrees<N(!new)>(m: Arithmetic<N>, e: Expression, input: Json<N>)
    requires e.Literal? || e.Input?
    ensures Agrees(m, e, input)
  {
  }

  /** evaluateRestrictedCel: an input that is a string or a safe number gets the meaning of the expression, and any
      other one is refused. */
  lemma InputsAreChecked<N(!new)>(m: Arithmetic<N>, e: Expression, input: Json<N>, j: Json<N>, error: EvalError)
    ensures var accepted := input.Str? || (input.Num? && m.safe(input.n));
      && (EvaluateRestrictedCel(m, e, input) == Ok(j) <==> accepted && Yields(m, e, input, j))
      && (EvaluateRestrictedCel(m, e, input) == Err(error) <==>
            if accepted then Fails(m, e, input, error)
            else error == EvalError(if input.Num? then NotSafe else BadInput, e.offset))
  {
    hide Evaluate, Yields, Fails;
    EvaluateIsTheMeaning(m, e, input);
  }

  // ---------- Laws of the operators ----------

  /** Strings are compared at the first place where they differ; a proper prefix is less. */
  ghost predicate LessAt(a: string, b: string, k: nat) {
    && k <= |a| && k < |b| && a[..k] == b[..k] && (k == |a| || a[k] < b[k])
  }

  lemma {:induction false} StringOrderIsLexicographic(a: string, b: string)
    ensures StringLess(a, b) <==> exists k: nat :: LessAt(a, b, k)
    decreases |a|
  {
    if a == "" {
      assert b != "" ==> LessAt(a, b, 0);
    } else if b != "" {
      if a[0] < b[0] {
        assert LessAt(a, b, 0);
      } else if a[0] == b[0] {
        StringOrderIsLexicographic(a[1..], b[1..]);
        if StringLess(a[1..], b[1..]) {
          var k: nat :| LessAt(a[1..], b[1..], k);
          assert a[..k + 1] == [a[0]] + a[1..][..k] && b[..k + 1] == [b[0]] + b[1..][..k];
          assert LessAt(a, b, k + 1);
        }
        forall k: nat | LessAt(a, b, k)
          ensures StringLess(a, b)
        {
          assert a[1..][..k - 1] == a[..k][1..] && b[1..][..k - 1] == b[..k][1..];
          assert LessAt(a[1..], b[1..], k - 1);
        }
      } else {
        forall k: nat
          ensures !LessAt(a, b, k)
        {
          if k > 0 && k <= |a| && k < |b| {
            assert a[..k][0] == a[0] && b[..k][0] == b[0];
          }
        }
      }
    }
  }

  /** Exactly one of: a is less, b is less, they are the same; and less is transitive. */
  lemma {:induction false} StringOrderIsTotal(a: string, b: string, c: string)
    ensures !(StringLess(a, b) && StringLess(b, a)) && (a == b <==> !StringLess(a, b) && !StringLess(b, a))
    ensures StringLess(a, b) && StringLess(b, c) ==> StringLess(a, c)
    decreases |a|
  {
    if a != "" && b != "" {
      var rest := if c == "" then "" else c[1..];
      StringOrderIsTotal(a[1..], b[1..], rest);
      assert a == [a[0]] + a[1..] && b == [b[0]] + b[1..];
    }
  }

  /** What comparing does with numbers that are not NaN: 0 and -0 are on a level, though they are not equal. */
  ghost predicate NumbersAreOrdered<N(!new)>(m: Arithmetic<N>) {
    && (forall a: N, b: N {:trigger m.less(a, b)} :: m.safe(a) && m.safe(b) ==> !(m.less(a, b) && m.less(b, a)))
    && (forall a: N, b: N, c: N {:trigger m.less(a, b), m.less(b, c)} ::
          m.safe(a) && m.safe(b) && m.safe(c) && m.less(a, c) ==> m.less(a, b) || m.less(b, c))
  }

  predicate SafeIfNumber<N>(m: Arithmetic<N>, x: Json<N>) { x.Num? ==> m.safe(x.n) }

  /** The order of numbers and strings is total: turning the operands around turns it around, it is transitive, and
      strings on a level are the same. */
  lemma OrderIsTotal<N(!new)>(m: Arithmetic<N>, x: Json<N>, y: Json<N>, z: Json<N>)
    requires NumbersAreOrdered(m) && Comparable(x, y) && Comparable(y, z)
    requires SafeIfNumber(m, x) && SafeIfNumber(m, y) && SafeIfNumber(m, z)
    ensures Order(m, y, x) == -Order(m, x, y)
    ensures Order(m, x, y) <= 0 && Order(m, y, z) <= 0 ==> Order(m, x, z) <= 0
    ensures Order(m, x, y) == 0 && Order(m, y, z) == 0 ==> Order(m, x, z) == 0
    ensures x.Str? ==> (Order(m, x, y) == 0 <==> x == y)
  {
    if x.Str? {
      hide StringLess;
      StringOrderIsTotal(x.s, y.s, z.s);
      StringOrderIsTotal(y.s, x.s, z.s);
      StringOrderIsTotal(x.s, z.s, y.s);
      StringOrderIsTotal(z.s, y.s, x.s);
    } else {
      assert m.less(z.n, x.n) ==> m.less(z.n, y.n) || m.less(y.n, x.n);
      assert m.less(x.n, z.n) ==> m.less(x.n, y.n) || m.less(y.n, z.n);
    }
  }

  /** The four comparisons of two numbers or two strings are the four ways of asking about one order. */
  lemma ComparisonsAreOneOrder<N(!new)>(m: Arithmetic<N>, l: Expression, r: Expression, o: nat, input: Json<N>)
    requires NumbersAreOrdered(m) && Evaluate(m, l, input).Ok? && Evaluate(m, r, input).Ok?
    requires var x, y := Evaluate(m, l, input).value, Evaluate(m, r, input).value;
      Comparable(x, y) && SafeIfNumber(m, x) && SafeIfNumber(m, y)
    ensures
      var x, y := Evaluate(m, l, input).value, Evaluate(m, r, input).value;
      && Evaluate(m, Binary("<", l, r, o), input) == Ok(Bool(Less(m, x, y)))
      && Evaluate(m, Binary(">", l, r, o), input) == Ok(Bool(Less(m, y, x)))
      && Evaluate(m, Binary("<=", l, r, o), input) == Ok(Bool(!Less(m, y, x)))
      && Evaluate(m, Binary(">=", l, r, o), input) == Ok(Bool(!Less(m, x, y)))
      && !(Less(m, x, y) && Less(m, y, x))
  {
    hide StringLess, Evaluate, Less, Order, Compare;
    var x, y := Evaluate(m, l, input).value, Evaluate(m, r, input).value;
    OrderIsTotal(m, x, y, y);
    LessIsOrder(m, x, y);
    LessIsOrder(m, y, x);
    Compared(m, "<", l, r, o, input);
    Compared(m, "<=", l, r, o, input);
    Compared(m, ">", l, r, o, input);
    Compared(m, ">=", l, r, o, input);
    CompareIs(m, x, y, "<", o);
    CompareIs(m, x, y, "<=", o);
    CompareIs(m, x, y, ">", o);
    CompareIs(m, x, y, ">=", o);
  }

  lemma LessIsOrder<N>(m: Arithmetic<N>, x: Json<N>, y: Json<N>)
    requires Comparable(x, y)
    ensures Less(m, x, y) <==> Order(m, x, y) < 0
  {
  }

  lemma Compared<N>(m: Arithmetic<N>, operator: string, l: Expression, r: Expression, o: nat, input: Json<N>)
    requires Evaluate(m, l, input).Ok? && Evaluate(m, r, input).Ok?
    requires operator in {"<", "<=", ">", ">="}
    ensures Evaluate(m, Binary(operator, l, r, o), input)
      == Compare(m, Evaluate(m, l, input).value, Evaluate(m, r, input).value, operator, o)
  {
    var e := Binary(operator, l, r, o);
    assert Evaluate(m, e, input) == Operate(m, e, Evaluate(m, l, input).value, Evaluate(m, r, input).value) by {
      hide JsonEquals, Compare, Operate;
    }
    assert Operate(m, e, Evaluate(m, l, input).value, Evaluate(m, r, input).value)
        == Compare(m, Evaluate(m, l, input).value, Evaluate(m, r, input).value, operator, o) by {
      hide JsonEquals, Compare, Evaluate;
      assert operator in LEVELS[4];
    }
  }

  /** && and || are dual, whatever their operands do: not both is the same as not the one or not the other, down to
      which operand is left alone and which error is reported. */
  lemma AndOrAreDual<N(!new)>(m: Arithmetic<N>, a: Expression, b: Expression, o: nat, input: Json<N>)
    ensures var notA, notB := Unary("!", a, a.offset), Unary("!", b, b.offset);
      && Evaluate(m, Unary("!", Binary("&&", a, b, o), o), input) == Evaluate(m, Binary("||", notA, notB, o), input)
      && Evaluate(m, Unary("!", Binary("||", a, b, o), o), input) == Evaluate(m, Binary("&&", notA, notB, o), input)
  {
  }
}
