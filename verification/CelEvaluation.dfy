/** Evaluating expression trees. Numbers are opaque: their arithmetic is a parameter. */
module CelEvaluation {
  import opened Wrappers
  import opened CelParsing

  /** A JSON value; the members of an object are in the order they were written. */
  datatype Json<N> =
    | Null
    | Bool(b: bool)
    | Num(n: N)
    | Str(s: string)
    | Arr(items: seq<Json<N>>)
    | Obj(members: seq<Member<N>>)

  datatype Member<N> = Member(key: string, value: Json<N>)

  datatype Arithmetic<!N> = Arithmetic(
    number: string -> N,
    safe: N -> bool,
    neg: N -> N,
    add: (N, N) -> N,
    sub: (N, N) -> N,
    mul: (N, N) -> N,
    div: (N, N) -> N,
    rem: (N, N) -> N,
    less: (N, N) -> bool)

  datatype Trouble = NeedsBoolean | NeedsNumber | NotSafe | NotComparable | BadInput | UnknownOperator

  datatype EvalError = EvalError(trouble: Trouble, offset: nat)

  type Outcome<N> = Result<Json<N>, EvalError>

  // ---------- Operators ----------

  function AsBool<N>(j: Json<N>, offset: nat): Outcome<N> {
    if j.Bool? then Ok(j) else Err(EvalError(NeedsBoolean, offset))
  }

  function Checked<N>(m: Arithmetic<N>, n: N, offset: nat): (r: Outcome<N>)
    ensures r.Ok? <==> m.safe(n)
    ensures r.Ok? ==> r.value == Num(n)
  {
    if m.safe(n) then Ok(Num(n)) else Err(EvalError(NotSafe, offset))
  }

  function EvaluateUnary<N>(m: Arithmetic<N>, operator: string, j: Json<N>, offset: nat): Outcome<N> {
    if operator == "!" then (if j.Bool? then Ok(Bool(!j.b)) else Err(EvalError(NeedsBoolean, offset)))
    else if !j.Num? then Err(EvalError(NeedsNumber, offset))
    else Checked(m, if operator == "-" then m.neg(j.n) else j.n, offset)
  }

  predicate StringLess(a: string, b: string)
    decreases |a|
  {
    b != "" && (a == "" || a[0] < b[0] || (a[0] == b[0] && StringLess(a[1..], b[1..])))
  }

  function Compare<N>(m: Arithmetic<N>, l: Json<N>, r: Json<N>, operator: string, offset: nat): Outcome<N> {
    if !(l.Num? && r.Num?) && !(l.Str? && r.Str?) then Err(EvalError(NotComparable, offset))
    else
      var below := if l.Num? then m.less(l.n, r.n) else StringLess(l.s, r.s);
      var above := if l.Num? then m.less(r.n, l.n) else StringLess(r.s, l.s);
      Ok(Bool(if operator == "<" then below
              else if operator == "<=" then below || !above
              else if operator == ">" then !below && above
              else !below))
  }

  function Arith<N>(m: Arithmetic<N>, f: (N, N) -> N, l: Json<N>, r: Json<N>, e: Expression): Outcome<N>
    requires e.Binary?
  {
    if !l.Num? then Err(EvalError(NeedsNumber, e.left.offset))
    else if !r.Num? then Err(EvalError(NeedsNumber, e.right.offset))
    else Checked(m, f(l.n, r.n), e.offset)
  }

  /** evaluateBinary, for the operators that look at both operands. */
  function Operate<N(==)>(m: Arithmetic<N>, e: Expression, l: Json<N>, r: Json<N>): Outcome<N>
    requires e.Binary?
  {
    match e.operator
    case "==" => Ok(Bool(JsonEquals(l, r)))
    case "!=" => Ok(Bool(!JsonEquals(l, r)))
    case "+" => if l.Str? && r.Str? then Ok(Str(l.s + r.s)) else Arith(m, m.add, l, r, e)
    case "-" => Arith(m, m.sub, l, r, e)
    case "*" => Arith(m, m.mul, l, r, e)
    case "/" => Arith(m, m.div, l, r, e)
    case "%" => Arith(m, m.rem, l, r, e)
    case op => if op in LEVELS[4] then Compare(m, l, r, op, e.offset) else Err(EvalError(UnknownOperator, e.offset))
  }

  // ---------- Equality ----------

  predicate Has<N>(members: seq<Member<N>>, key: string) {
    exists k :: 0 <= k < |members| && members[k].key == key
  }

  function Find<N>(members: seq<Member<N>>, key: string): (j: Json<N>)
    requires Has(members, key)
    ensures exists k :: 0 <= k < |members| && members[k] == Member(key, j)
  {
    if members[0].key == key then (assert members[0] == Member(key, members[0].value); members[0].value)
    else
      assert exists k :: 0 <= k < |members[1..]| && members[1..][k].key == key by {
        var k :| 0 <= k < |members| && members[k].key == key;
        assert members[1..][k - 1].key == key;
      }
      var j := Find(members[1..], key);
      assert exists k :: 0 <= k < |members| && members[k] == Member(key, j) by {
        var k :| 0 <= k < |members[1..]| && members[1..][k] == Member(key, j);
        assert members[k + 1] == Member(key, j);
      }
      j
  }

  /** jsonEquals. */
  predicate JsonEquals<N(==)>(l: Json<N>, r: Json<N>)
    decreases l
  {
    match l
    case Arr(items) =>
      r.Arr? && |items| == |r.items| && forall k :: 0 <= k < |items| ==> JsonEquals(items[k], r.items[k])
    case Obj(members) =>
      r.Obj? && |members| == |r.members| &&
      forall k :: 0 <= k < |members| ==> Has(r.members, members[k].key) && JsonEquals(members[k].value, Find(r.members, members[k].key))
    case _ => l == r
  }

  // ---------- Expressions ----------

  function Evaluate<N(==)>(m: Arithmetic<N>, e: Expression, input: Json<N>): Outcome<N>
    decreases e
  {
    match e
    case Literal(Text(s), _) => Ok(Str(s))
    case Literal(Digits(text), _) => Ok(Num(m.number(text)))
    case Literal(Boolean(b), _) => Ok(Bool(b))
    case Literal(NullValue, _) => Ok(Null)
    case Input(_) => Ok(input)
    case Array(_, _) =>
      var l := EvaluateElements(m, e, 0, input);
      if l.Err? then Err(l.error) else Ok(Arr(l.value))
    case Object(_, _) =>
      var l := EvaluateEntries(m, e, 0, input);
      if l.Err? then Err(l.error) else Ok(Obj(l.value))
    case Unary(operator, operand, offset) =>
      var j := Evaluate(m, operand, input);
      if j.Err? then j else EvaluateUnary(m, operator, j.value, offset)
    case Binary(operator, left, right, _) =>
      var l := Evaluate(m, left, input);
      if l.Err? then l
      else if operator == "&&" || operator == "||" then
        if !l.value.Bool? then Err(EvalError(NeedsBoolean, left.offset))
        else if l.value.b == (operator == "||") then l
        else
          var r := Evaluate(m, right, input);
          if r.Err? then r else AsBool(r.value, right.offset)
      else
        var r := Evaluate(m, right, input);
        if r.Err? then r else Operate(m, e, l.value, r.value)
    case Conditional(c, t, f, _) =>
      var j := Evaluate(m, c, input);
      if j.Err? then j
      else if !j.value.Bool? then Err(EvalError(NeedsBoolean, c.offset))
      else if j.value.b then Evaluate(m, t, input) else Evaluate(m, f, input)
  }

  function EvaluateElements<N(==)>(m: Arithmetic<N>, e: Expression, k: nat, input: Json<N>): (r: Result<seq<Json<N>>,
          EvalError>)
    requires e.Array? && k <= |e.elements|
    ensures r.Ok? ==> |r.value| == |e.elements| - k
    decreases e, |e.elements| - k
  {
    if k == |e.elements| then Ok([])
    else
      var j := Evaluate(m, e.elements[k], input);
      if j.Err? then Err(j.error)
      else
        var rest := EvaluateElements(m, e, k + 1, input);
        if rest.Err? then rest else Ok([j.value] + rest.value)
  }

  function EvaluateEntries<N(==)>(m: Arithmetic<N>, e: Expression, k: nat, input: Json<N>): (r: Result<seq<Member<N>>,
          EvalError>)
    requires e.Object? && k <= |e.entries|
    ensures r.Ok? ==>
      |r.value| == |e.entries| - k && forall i :: 0 <= i < |r.value| ==> r.value[i].key == e.entries[k + i].key
    decreases e, |e.entries| - k
  {
    if k == |e.entries| then Ok([])
    else
      var j := Evaluate(m, e.entries[k].value, input);
      if j.Err? then Err(j.error)
      else
        var rest := EvaluateEntries(m, e, k + 1, input);
        if rest.Err? then rest else Ok([Member(e.entries[k].key, j.value)] + rest.value)
  }

  /** evaluateRestrictedCel: the input is a string or a safe number. */
  function EvaluateRestrictedCel<N(==)>(m: Arithmetic<N>, e: Expression, input: Json<N>): Outcome<N> {
    if input.Num? && !m.safe(input.n) then Err(EvalError(NotSafe, e.offset))
    else if !input.Num? && !input.Str? then Err(EvalError(BadInput, e.offset))
    else Evaluate(m, e, input)
  }

  // ---------- Numbers stay safe, keys stay unique ----------

  /** Every number in the value is safe, and no object has a key twice. */
  predicate Sound<N>(m: Arithmetic<N>, j: Json<N>)
    decreases j
  {
    match j
    case Num(n) => m.safe(n)
    case Arr(items) => forall k :: 0 <= k < |items| ==> Sound(m, items[k])
    case Obj(members) =>
      && (forall a, b :: 0 <= a < b < |members| ==> members[a].key != members[b].key)
      && forall k :: 0 <= k < |members| ==> Sound(m, members[k].value)
    case _ => true
  }

  /** The texts the parser accepts are those of safe numbers. */
  ghost predicate SafeTexts<N(!new)>(m: Arithmetic<N>, safe: string -> bool) {
    forall text :: safe(text) <==> m.safe(m.number(text))
  }

  lemma OperateIsSound<N(!new)>(m: Arithmetic<N>, e: Expression, l: Json<N>, r: Json<N>)
    requires e.Binary? && Operate(m, e, l, r).Ok?
    ensures Sound(m, Operate(m, e, l, r).value)
  {
    hide JsonEquals;
  }

  /** Whatever a well-formed expression evaluates to, every number in it is finite and, if integral, safe. */
  lemma {:induction false} EvaluationIsSound<N(!new)>(m: Arithmetic<N>, safe: string -> bool, e: Expression,
          input: Json<N>)
    requires SafeTexts(m, safe) && WellFormed(safe, e) && Sound(m, input) && Evaluate(m, e, input).Ok?
    ensures Sound(m, Evaluate(m, e, input).value)
    decreases e
  {
    hide Operate, JsonEquals;
    match e
    case Literal(_, _) =>
    case Input(_) =>
    case Array(_, _) => ElementsAreSound(m, safe, e, 0, input);
    case Object(_, _) => EntriesAreSound(m, safe, e, 0, input);
    case Unary(_, operand, _) => EvaluationIsSound(m, safe, operand, input);
    case Binary(operator, left, right, _) =>
      EvaluationIsSound(m, safe, left, input);
      if Evaluate(m, right, input).Ok? {
        EvaluationIsSound(m, safe, right, input);
        if operator != "&&" && operator != "||" {
          OperateIsSound(m, e, Evaluate(m, left, input).value, Evaluate(m, right, input).value);
        }
      }
    case Conditional(c, t, f, _) =>
      if Evaluate(m, c, input).value.b { EvaluationIsSound(m, safe, t, input); } else { EvaluationIsSound(m, safe, f, input); }
  }

  lemma {:induction false} ElementsAreSound<N(!new)>(m: Arithmetic<N>, safe: string -> bool, e: Expression, k: nat,
          input: Json<N>)
    requires SafeTexts(m, safe) && e.Array? && k <= |e.elements| && WellFormed(safe, e) && Sound(m, input)
    requires EvaluateElements(m, e, k, input).Ok?
    ensures var l := EvaluateElements(m, e, k, input).value; forall i :: 0 <= i < |l| ==> Sound(m, l[i])
    decreases e, |e.elements| - k
  {
    if k < |e.elements| {
      EvaluationIsSound(m, safe, e.elements[k], input);
      ElementsAreSound(m, safe, e, k + 1, input);
    }
  }

  lemma {:induction false} EntriesAreSound<N(!new)>(m: Arithmetic<N>, safe: string -> bool, e: Expression, k: nat,
          input: Json<N>)
    requires SafeTexts(m, safe) && e.Object? && k <= |e.entries| && WellFormed(safe, e) && Sound(m, input)
    requires EvaluateEntries(m, e, k, input).Ok?
    ensures var l := EvaluateEntries(m, e, k, input).value; forall i :: 0 <= i < |l| ==> Sound(m, l[i].value)
    decreases e, |e.entries| - k
  {
    if k < |e.entries| {
      EvaluationIsSound(m, safe, e.entries[k].value, input);
      EntriesAreSound(m, safe, e, k + 1, input);
    }
  }

  // ---------- The static check ----------

  /** assertObjectResultExpression accepts the expression. */
  predicate MustBeObject(e: Expression)
    decreases e
  {
    e.Object? || (e.Conditional? && MustBeObject(e.whenTrue) && MustBeObject(e.whenFalse))
  }

  /** What the static check accepts can only evaluate to an object: the check on the result never fails. */
  lemma {:induction false} StaticCheckSuffices<N>(m: Arithmetic<N>, e: Expression, input: Json<N>)
    requires MustBeObject(e) && Evaluate(m, e, input).Ok?
    ensures Evaluate(m, e, input).value.Obj?
    decreases e
  {
    if e.Conditional? {
      if Evaluate(m, e.condition, input).value.b {
        StaticCheckSuffices(m, e.whenTrue, input);
      } else {
        StaticCheckSuffices(m, e.whenFalse, input);
      }
    }
  }

  // ---------- What equality means ----------

  /** A JSON value in which an object is a map: the order of members is gone. */
  datatype Plain<N> =
    | PNull
    | PBool(b: bool)
    | PNum(n: N)
    | PStr(s: string)
    | PArr(items: seq<Plain<N>>)
    | PObj(fields: map<string, Plain<N>>)

  function KeySet<N>(members: seq<Member<N>>): set<string> {
    set k | 0 <= k < |members| :: members[k].key
  }

  function Place<N>(members: seq<Member<N>>, key: string): (k: nat)
    requires key in KeySet(members)
    ensures k < |members| && members[k].key == key
  {
    if members[0].key == key then 0
    else
      assert key in KeySet(members[1..]) by {
        var k :| 0 <= k < |members| && members[k].key == key;
        assert members[1..][k - 1].key == key;
      }
      1 + Place(members[1..], key)
  }

  function Meaning<N>(j: Json<N>): Plain<N>
    decreases j
  {
    match j
    case Null => PNull
    case Bool(b) => PBool(b)
    case Num(n) => PNum(n)
    case Str(s) => PStr(s)
    case Arr(items) => PArr(seq(|items|, i requires 0 <= i < |items| => Meaning(items[i])))
    case Obj(members) => PObj(map key | key in KeySet(members) :: Meaning(members[Place(members, key)].value))
  }

  /** No object has a key twice. */
  predicate Tidy<N>(j: Json<N>)
    decreases j
  {
    match j
    case Arr(items) => forall k :: 0 <= k < |items| ==> Tidy(items[k])
    case Obj(members) =>
      && (forall a, b :: 0 <= a < b < |members| ==> members[a].key != members[b].key)
      && forall k :: 0 <= k < |members| ==> Tidy(members[k].value)
    case _ => true
  }

  lemma {:induction false} SoundIsTidy<N>(m: Arithmetic<N>, j: Json<N>)
    requires Sound(m, j)
    ensures Tidy(j)
    decreases j
  {
    match j
    case Arr(items) => forall k | 0 <= k < |items| ensures Tidy(items[k]) { SoundIsTidy(m, items[k]); }
    case Obj(members) => forall k | 0 <= k < |members| ensures Tidy(members[k].value) { SoundIsTidy(m, members[k].value); }
    case _ =>
  }

  lemma {:induction false} KeyCount<N>(members: seq<Member<N>>)
    requires forall a, b :: 0 <= a < b < |members| ==> members[a].key != members[b].key
    ensures |KeySet(members)| == |members|
  {
    if members != [] {
      var last := |members| - 1;
      KeyCount(members[..last]);
      assert KeySet(members) == KeySet(members[..last]) + {members[last].key};
    }
  }

  lemma SubsetOfSameSize(a: set<string>, b: set<string>)
    requires a <= b && |a| == |b|
    ensures a == b
  {
    assert |b - a| == |b| - |a|;
  }

  lemma FindIsPlace<N>(members: seq<Member<N>>, k: nat)
    requires k < |members| && forall a, b :: 0 <= a < b < |members| ==> members[a].key != members[b].key
    ensures Has(members, members[k].key) && Find(members, members[k].key) == members[k].value
    ensures members[k].key in KeySet(members) && Place(members, members[k].key) == k
  {
    var j := Find(members, members[k].key);
    var i :| 0 <= i < |members| && members[i] == Member(members[k].key, j);
    assert i == k;
  }

  /** jsonEquals says exactly that two values mean the same: it is an equivalence, and does not look at the
      order of keys. */
  lemma {:induction false} EqualityIsMeaning<N>(l: Json<N>, r: Json<N>)
    requires Tidy(l) && Tidy(r)
    ensures JsonEquals(l, r) <==> Meaning(l) == Meaning(r)
    decreases l
  {
    if l.Arr? && r.Arr? && |l.items| == |r.items| {
      forall k | 0 <= k < |l.items|
        ensures JsonEquals(l.items[k], r.items[k]) <==> Meaning(l).items[k] == Meaning(r).items[k]
      {
        EqualityIsMeaning(l.items[k], r.items[k]);
      }
    } else if l.Obj? && r.Obj? {
      ObjectsAreEqual(l, r);
    } else if l.Arr? && r.Arr? {
      assert |Meaning(l).items| != |Meaning(r).items|;
    }
  }

  /** Member k of an object, in its three guises. */
  lemma MemberIs<N>(j: Json<N>, k: nat)
    requires j.Obj? && Tidy(j) && k < |j.members|
    ensures var key := j.members[k].key;
      && Has(j.members, key) && Find(j.members, key) == j.members[k].value
      && key in Meaning(j).fields && Meaning(j).fields[key] == Meaning(j.members[k].value)
  {
    FindIsPlace(j.members, k);
  }

  lemma FieldsAre<N>(j: Json<N>)
    requires j.Obj? && Tidy(j)
    ensures Meaning(j).PObj? && Meaning(j).fields.Keys == KeySet(j.members) && |KeySet(j.members)| == |j.members|
  {
    KeyCount(j.members);
  }

  lemma Partner<N>(l: Json<N>, r: Json<N>, k: nat) returns (i: nat)
    requires l.Obj? && r.Obj? && Tidy(r) && JsonEquals(l, r) && k < |l.members|
    ensures i < |r.members| && r.members[i].key == l.members[k].key
      && JsonEquals(l.members[k].value, r.members[i].value)
  {
    assert Has(r.members, l.members[k].key);
    i :| 0 <= i < |r.members| && r.members[i].key == l.members[k].key;
    MemberIs(r, i);
  }

  lemma EqualObjectsMeanTheSame<N>(l: Json<N>, r: Json<N>)
    requires l.Obj? && r.Obj? && Tidy(l) && Tidy(r) && JsonEquals(l, r)
    requires forall k, i :: 0 <= k < |l.members| && 0 <= i < |r.members| && JsonEquals(l.members[k].value, r.members[i].value) ==>
               Meaning(l.members[k].value) == Meaning(r.members[i].value)
    ensures Meaning(l) == Meaning(r)
  {
    hide Meaning, Tidy, Find, JsonEquals;
    FieldsAre(l);
    FieldsAre(r);
    SameSize(l, r);
    var p, q := Meaning(l).fields, Meaning(r).fields;
    forall key | key in p
      ensures key in q && p[key] == q[key]
    {
      var k :| 0 <= k < |l.members| && l.members[k].key == key;
      var i := Partner(l, r, k);
      MemberIs(l, k);
      MemberIs(r, i);
    }
    SubsetOfSameSize(p.Keys, q.Keys);
    SameMap(p, q);
  }

  lemma SameSize<N>(l: Json<N>, r: Json<N>)
    requires l.Obj? && r.Obj? && JsonEquals(l, r)
    ensures |l.members| == |r.members|
  {
  }

  lemma SameMap<A, B>(p: map<A, B>, q: map<A, B>)
    requires p.Keys == q.Keys && forall key :: key in p ==> p[key] == q[key]
    ensures p == q
  {
  }

  lemma SameMeaningIsEqual<N>(l: Json<N>, r: Json<N>)
    requires l.Obj? && r.Obj? && Tidy(l) && Tidy(r) && Meaning(l) == Meaning(r)
    requires forall k, i :: 0 <= k < |l.members| && 0 <= i < |r.members| && Meaning(l.members[k].value) == Meaning(r.members[i].value) ==>
               JsonEquals(l.members[k].value, r.members[i].value)
    ensures JsonEquals(l, r)
  {
    hide Meaning, Tidy, Find;
    FieldsAre(l);
    FieldsAre(r);
    forall k | 0 <= k < |l.members|
      ensures Has(r.members, l.members[k].key) && JsonEquals(l.members[k].value, Find(r.members, l.members[k].key))
    {
      MemberIs(l, k);
      assert l.members[k].key in KeySet(r.members);
      var i :| 0 <= i < |r.members| && r.members[i].key == l.members[k].key;
      MemberIs(r, i);
    }
  }

  lemma {:induction false} ObjectsAreEqual<N>(l: Json<N>, r: Json<N>)
    requires l.Obj? && r.Obj? && Tidy(l) && Tidy(r)
    ensures JsonEquals(l, r) <==> Meaning(l) == Meaning(r)
    decreases l, 0
  {
    hide Meaning, JsonEquals;
    forall k, i | 0 <= k < |l.members| && 0 <= i < |r.members|
      ensures JsonEquals(l.members[k].value, r.members[i].value) <==> Meaning(l.members[k].value) == Meaning(r.members[i].value)
    {
      EqualityIsMeaning(l.members[k].value, r.members[i].value);
    }
    if JsonEquals(l, r) { EqualObjectsMeanTheSame(l, r); }
    if Meaning(l) == Meaning(r) { SameMeaningIsEqual(l, r); }
  }
}
