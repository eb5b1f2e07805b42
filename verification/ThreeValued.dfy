/** AND, OR, XOR, NOT, IS, =, <=>, IN and NOT IN over integers and NULL. */
module ThreeValued {
  import opened Common

  /** `None` is NULL. */
  type Value = Option<int>

  datatype Test = IsNull | IsTrue | IsFalse

  datatype Expr =
    | Lit(value: Value)
    | Not(arg: Expr)
    | And(left: Expr, right: Expr)
    | Or(left: Expr, right: Expr)
    | Xor(left: Expr, right: Expr)
    | Equal(left: Expr, right: Expr)
    | NullSafeEqual(left: Expr, right: Expr)
    | Is(arg: Expr, test: Test)
    | IsNot(arg: Expr, test: Test)
    | In(arg: Expr, list: seq<Expr>)
    | NotIn(arg: Expr, list: seq<Expr>)

  // ----- What the evaluator computes -----

  /** `convertBooleanValue`. */
  function ToBool(v: Value): Value {
    match v
    case None => None
    case Some(n) => Some(if n != 0 then 1 else 0)
  }

  function Flip(v: Value): Value {
    match v
    case None => None
    case Some(n) => Some(if n != 0 then 0 else 1)
  }

  function EqualValues(a: Value, b: Value): Value {
    if a.None? || b.None? then None else Some(if a == b then 1 else 0)
  }

  /** `is`: never NULL. */
  function TestValue(v: Value, test: Test): Value {
    match test
    case IsNull => Some(if v.None? then 1 else 0)
    case IsTrue => Some(if ToBool(v) == Some(1) then 1 else 0)
    case IsFalse => Some(if ToBool(v) == Some(0) then 1 else 0)
  }

  /** `getValue`, branch by branch: AND and OR look at their right side only when the left one leaves the
      answer open. */
  function Eval(e: Expr): Value {
    match e
    case Lit(v) => v
    case Not(a) => Flip(Eval(a))
    case And(l, r) =>
      var left := ToBool(Eval(l));
      if left == Some(0) then left else
        var right := ToBool(Eval(r));
        if left.None? || right.None? then (if right == Some(0) then Some(0) else None)
        else if right == Some(0) then right else left
    case Or(l, r) =>
      var left := ToBool(Eval(l));
      if left == Some(1) then left else
        var right := ToBool(Eval(r));
        if right == Some(1) then Some(1)
        else if left.Some? then right
        else left
    case Xor(l, r) =>
      var left, right := ToBool(Eval(l)), ToBool(Eval(r));
      if left.None? || right.None? then None else Some(if left != right then 1 else 0)
    case Equal(l, r) => EqualValues(Eval(l), Eval(r))
    case NullSafeEqual(l, r) =>
      var left, right := Eval(l), Eval(r);
      if left.None? || right.None? then Some(if left == right then 1 else 0) else EqualValues(left, right)
    case Is(a, test) => TestValue(Eval(a), test)
    case IsNot(a, test) => Flip(TestValue(Eval(a), test))
    case In(a, list) => EvalIn(Eval(a), seq(|list|, i requires 0 <= i < |list| => Eval(list[i])))
    case NotIn(a, list) => Flip(EvalIn(Eval(a), seq(|list|, i requires 0 <= i < |list| => Eval(list[i]))))
  }

  function EvalIn(left: Value, list: seq<Value>): Value {
    if left.None? then None else Scan(left, list, Some(0))
  }

  /** The loop of `inOp` over the rest of the list, with the value so far; a match ends it. */
  function Scan(left: Value, list: seq<Value>, value: Value): Value {
    if list == [] then value
    else if list[0].None? then Scan(left, list[1..], None)
    else if left == list[0] then Some(1)
    else Scan(left, list[1..], value)
  }

  /** `inOp`, given the values of its operands. */
  method InOp(left: Value, list: seq<Value>) returns (value: Value)
    ensures value == EvalIn(left, list)
    ensures list != [] || left.Some? ==> value == ValueOf(AnyEqual(left, list))
  {
    value := Some(0);
    AnyEqualUnknown(list);
    if left.None? {
      return None;
    }
    ScanIsAny(left, list, Some(0));
    var i := 0;
    while i < |list|
      invariant i <= |list|
      invariant Scan(left, list[i..], value) == Scan(left, list, Some(0))
    {
      assert list[i..][1..] == list[i + 1..];
      if list[i].None? {
        value := None;
      } else if left == list[i] {
        value := Some(1);
        break;
      }
      i := i + 1;
    }
  }

  // ----- Kleene's logic -----

  /** The truth values, with NULL between false and true. */
  datatype Truth = False | Unknown | True

  function TruthOf(v: Value): Truth {
    if v.None? then Unknown else if v.value == 0 then False else True
  }

  function ValueOf(t: Truth): Value {
    match t
    case False => Some(0)
    case Unknown => None
    case True => Some(1)
  }

  function Rank(t: Truth): int {
    match t
    case False => 0
    case Unknown => 1
    case True => 2
  }

  /** Conjunction is the smaller, disjunction the larger of two truth values; negation turns the order
      around. */
  function Both(a: Truth, b: Truth): Truth {
    if Rank(a) <= Rank(b) then a else b
  }

  function Either(a: Truth, b: Truth): Truth {
    if Rank(a) >= Rank(b) then a else b
  }

  function Negated(a: Truth): (r: Truth)
    ensures Rank(r) == 2 - Rank(a)
  {
    match a
    case False => True
    case Unknown => Unknown
    case True => False
  }

  function SameInt(a: Value, b: Value): Truth {
    if a.None? || b.None? then Unknown else if a == b then True else False
  }

  function TestTruth(v: Value, test: Test): Truth {
    var holds :=
      match test
      case IsNull => v.None?
      case IsTrue => TruthOf(v) == True
      case IsFalse => TruthOf(v) == False;
    if holds then True else False
  }

  /** What an expression means; IN is the disjunction, NOT IN the conjunction over the list. */
  function Meaning(e: Expr): Value {
    match e
    case Lit(v) => v
    case Not(a) => ValueOf(Negated(TruthOf(Meaning(a))))
    case And(l, r) => ValueOf(Both(TruthOf(Meaning(l)), TruthOf(Meaning(r))))
    case Or(l, r) => ValueOf(Either(TruthOf(Meaning(l)), TruthOf(Meaning(r))))
    case Xor(l, r) =>
      var a, b := TruthOf(Meaning(l)), TruthOf(Meaning(r));
      ValueOf(Either(Both(a, Negated(b)), Both(Negated(a), b)))
    case Equal(l, r) => ValueOf(SameInt(Meaning(l), Meaning(r)))
    case NullSafeEqual(l, r) => ValueOf(if Meaning(l) == Meaning(r) then True else False)
    case Is(a, test) => ValueOf(TestTruth(Meaning(a), test))
    case IsNot(a, test) => ValueOf(Negated(TestTruth(Meaning(a), test)))
    case In(a, list) => ValueOf(AnyEqual(Meaning(a), seq(|list|, i requires 0 <= i < |list| => Meaning(list[i]))))
    case NotIn(a, list) => ValueOf(NoneEqual(Meaning(a), seq(|list|, i requires 0 <= i < |list| => Meaning(list[i]))))
  }

  /** x = a OR x = b OR ... */
  function AnyEqual(x: Value, list: seq<Value>): Truth {
    if list == [] then False else Either(SameInt(x, list[0]), AnyEqual(x, list[1..]))
  }

  /** NOT x = a AND NOT x = b AND ... */
  function NoneEqual(x: Value, list: seq<Value>): Truth {
    if list == [] then True else Both(Negated(SameInt(x, list[0])), NoneEqual(x, list[1..]))
  }

  // ----- They agree -----

  /** Every IN list has an item. */
  predicate ListsNotEmpty(e: Expr) {
    match e
    case Lit(_) => true
    case Not(a) => ListsNotEmpty(a)
    case And(l, r) => ListsNotEmpty(l) && ListsNotEmpty(r)
    case Or(l, r) => ListsNotEmpty(l) && ListsNotEmpty(r)
    case Xor(l, r) => ListsNotEmpty(l) && ListsNotEmpty(r)
    case Equal(l, r) => ListsNotEmpty(l) && ListsNotEmpty(r)
    case NullSafeEqual(l, r) => ListsNotEmpty(l) && ListsNotEmpty(r)
    case Is(a, _) => ListsNotEmpty(a)
    case IsNot(a, _) => ListsNotEmpty(a)
    case In(a, list) => ListsNotEmpty(a) && list != [] && forall i :: 0 <= i < |list| ==> ListsNotEmpty(list[i])
    case NotIn(a, list) => ListsNotEmpty(a) && list != [] && forall i :: 0 <= i < |list| ==> ListsNotEmpty(list[i])
  }

  /** De Morgan, over a list. */
  lemma {:induction false} NoneIsNotAny(x: Value, list: seq<Value>)
    ensures NoneEqual(x, list) == Negated(AnyEqual(x, list))
  {
    if list != [] {
      NoneIsNotAny(x, list[1..]);
    }
  }

  lemma {:induction false} AnyEqualUnknown(list: seq<Value>)
    ensures AnyEqual(None, list) == if list == [] then False else Unknown
  {
    if list != [] {
      AnyEqualUnknown(list[1..]);
    }
  }

  /** The loop of IN computes the disjunction, on top of what it has so far. */
  lemma {:induction false} ScanIsAny(x: Value, list: seq<Value>, value: Value)
    requires x.Some? && (value == None || value == Some(0))
    ensures Scan(x, list, value) == ValueOf(Either(TruthOf(value), AnyEqual(x, list)))
  {
    if list != [] {
      ScanIsAny(x, list[1..], if list[0].None? then None else value);
    }
  }

  lemma UnaryIsMeaning(a: Expr, test: Test)
    requires Eval(a) == Meaning(a)
    ensures Eval(Not(a)) == Meaning(Not(a))
    ensures Eval(Is(a, test)) == Meaning(Is(a, test)) && Eval(IsNot(a, test)) == Meaning(IsNot(a, test))
  {
  }

  lemma AndOrIsMeaning(l: Expr, r: Expr)
    requires Eval(l) == Meaning(l) && Eval(r) == Meaning(r)
    ensures Eval(And(l, r)) == Meaning(And(l, r)) && Eval(Or(l, r)) == Meaning(Or(l, r))
  {
  }

  lemma XorIsMeaning(l: Expr, r: Expr)
    requires Eval(l) == Meaning(l) && Eval(r) == Meaning(r)
    ensures Eval(Xor(l, r)) == Meaning(Xor(l, r))
  {
  }

  lemma EqualIsMeaning(l: Expr, r: Expr)
    requires Eval(l) == Meaning(l) && Eval(r) == Meaning(r)
    ensures Eval(Equal(l, r)) == Meaning(Equal(l, r))
    ensures Eval(NullSafeEqual(l, r)) == Meaning(NullSafeEqual(l, r))
  {
  }

  /** Short-circuit evaluation gives every expression its three-valued meaning. */
  lemma {:induction false} EvalIsMeaning(e: Expr)
    requires ListsNotEmpty(e)
    ensures Eval(e) == Meaning(e)
  {
    if e.Lit? {
      return;
    }
    hide Eval, Meaning;
    if e.Not? || e.Is? || e.IsNot? {
      EvalIsMeaning(e.arg);
      UnaryIsMeaning(e.arg, if e.Not? then IsNull else e.test);
    } else if e.In? || e.NotIn? {
      EvalIsMeaning(e.arg);
      forall i | 0 <= i < |e.list|
        ensures Eval(e.list[i]) == Meaning(e.list[i])
      {
        EvalIsMeaning(e.list[i]);
      }
      InIsMeaning(e.arg, e.list);
    } else {
      EvalIsMeaning(e.left);
      EvalIsMeaning(e.right);
      AndOrIsMeaning(e.left, e.right);
      XorIsMeaning(e.left, e.right);
      EqualIsMeaning(e.left, e.right);
    }
  }

  lemma InIsMeaning(a: Expr, list: seq<Expr>)
    requires Eval(a) == Meaning(a) && list != [] && forall i :: 0 <= i < |list| ==> Eval(list[i]) == Meaning(list[i])
    ensures Eval(In(a, list)) == Meaning(In(a, list)) && Eval(NotIn(a, list)) == Meaning(NotIn(a, list))
  {
    var values := seq(|list|, i requires 0 <= i < |list| => Eval(list[i]));
    assert values == seq(|list|, i requires 0 <= i < |list| => Meaning(list[i]));
    NoneIsNotAny(Eval(a), values);
    AnyEqualUnknown(values);
    if Eval(a).Some? {
      ScanIsAny(Eval(a), values, Some(0));
    }
  }
}
