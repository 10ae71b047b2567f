/**
 Logic expression items of the Calc module: acceptance of a configured item
 (src/Calc/CalcValidation.cc) and its evaluation on the latest inputs
 (src/Calc/CalcGroupManager.cc). Decimal arithmetic is opaque: a numeric value only
 says whether it fits the fixed-point type.
 */
module CalcItem {
  import opened Wrappers
  import opened LogicExpression

  datatype PointValue = BoolValue(b: bool) | Numeric(representable: bool) | Unsupported

  datatype SourceKind = Unspecified | RoutedInput | Constant | Unknown

  datatype Operand = Operand(sourceKind: SourceKind, constant: Option<PointValue>)

  /** The configuration of one item whose operator is the logic expression. */
  datatype Item = Item(
    operands: seq<Operand>, expression: string,
    hasLeft: bool, hasRight: bool, hasDecimalPlaces: bool)

  // ---------- acceptance ----------

  predicate OperandAccepted(o: Operand) {
    match o.sourceKind
    case RoutedInput => o.constant == None
    case Constant => o.constant.Some? && o.constant.value.BoolValue?
    case _ => false
  }

  ghost predicate Accepted(item: Item) {
    && 1 <= |item.operands| <= MAX_INPUTS
    && !item.hasLeft && !item.hasRight && !item.hasDecimalPlaces
    && (forall i :: 0 <= i < |item.operands| ==> OperandAccepted(item.operands[i]))
    && exists e :: Sentence(item.expression, |item.operands|, e)
  }

  /** An operand is routed and has no constant, or is a boolean constant. */
  lemma RefusedIff(item: Item)
    ensures !Accepted(item) <==>
              || item.operands == [] || |item.operands| > 256
              || item.hasLeft || item.hasRight || item.hasDecimalPlaces
              || (exists i :: 0 <= i < |item.operands| &&
                    !(item.operands[i] == Operand(RoutedInput, None) ||
                      item.operands[i] == Operand(Constant, Some(BoolValue(true))) ||
                      item.operands[i] == Operand(Constant, Some(BoolValue(false)))))
              || !exists e :: Sentence(item.expression, |item.operands|, e)
  {
    forall o ensures OperandAccepted(o) <==> o in {Operand(RoutedInput, None),
      Operand(Constant, Some(BoolValue(true))), Operand(Constant, Some(BoolValue(false)))}
    {
    }
  }

  /** The expression branch of the configuration check: it tries the expression on all-false
      inputs, and thereby accepts exactly the sentences over that many inputs. */
  method ValidateItem(item: Item) returns (ok: bool)
    ensures ok <==> Accepted(item)
  {
    if |item.operands| < 1 || |item.operands| > MAX_INPUTS {
      return false;
    }
    if item.hasLeft || item.hasRight || item.hasDecimalPlaces {
      return false;
    }
    for i := 0 to |item.operands|
      invariant forall j :: 0 <= j < i ==> OperandAccepted(item.operands[j])
    {
      if !OperandAccepted(item.operands[i]) {
        return false;
      }
    }
    var inputs := seq(|item.operands|, _ => false);
    var value := EvaluateLogicExpression(item.expression, inputs);
    AcceptedIffSentence(item.expression, inputs);
    return value.Some?;
  }

  lemma AcceptedIffSentence(text: string, inputs: seq<bool>)
    ensures Evaluate(text, inputs).Some? <==> exists e :: Sentence(text, |inputs|, e)
  {
    if e :| Sentence(text, |inputs|, e) {
      BelowIffUses(e, |inputs|);
      EvaluateIffSentence(text, inputs, Value(e, inputs));
    }
    if Evaluate(text, inputs).Some? {
      EvaluateIffSentence(text, inputs, Evaluate(text, inputs).value);
    }
  }

  // ---------- evaluation ----------

  datatype Outcome = Publish(value: bool) | Waiting(missing: seq<nat>) | Rejected

  /** The value an operand has now: a constant, or the latest update of input `index`. */
  function Current(o: Operand, index: nat, latest: map<nat, PointValue>): Option<PointValue> {
    if o.sourceKind == Constant then o.constant
    else if index in latest then Some(latest[index])
    else None
  }

  predicate ReadyAt(item: Item, latest: map<nat, PointValue>, i: nat)
    requires i < |item.operands|
  {
    var v := Current(item.operands[i], i, latest);
    v.Some? && v.value.BoolValue?
  }

  ghost predicate Ready(item: Item, latest: map<nat, PointValue>) {
    forall i :: 0 <= i < |item.operands| ==> ReadyAt(item, latest, i)
  }

  ghost function Inputs(item: Item, latest: map<nat, PointValue>): (r: seq<bool>)
    requires Ready(item, latest)
    ensures |r| == |item.operands|
  {
    seq(|item.operands|, i requires 0 <= i < |item.operands| =>
      assert ReadyAt(item, latest, i); Current(item.operands[i], i, latest).value.b)
  }

  /** An input is the constant of its operand, or what was received for it last. */
  lemma InputsAre(item: Item, latest: map<nat, PointValue>, i: nat)
    requires Ready(item, latest) && i < |item.operands|
    ensures var o, b := item.operands[i], Inputs(item, latest)[i];
            if o.sourceKind == Constant then o.constant == Some(BoolValue(b))
            else i in latest && latest[i] == BoolValue(b)
  {
    assert ReadyAt(item, latest, i);
  }

  /** Once accepted on all-false inputs, an expression never fails on real ones: it is published
      exactly when every operand has a boolean value, with the meaning of its only reading. */
  lemma AcceptedNeverFails(item: Item, latest: map<nat, PointValue>)
    requires Accepted(item) && Ready(item, latest)
    ensures exists e :: Sentence(item.expression, |item.operands|, e)
              && Below(e, |item.operands|)
              && Evaluate(item.expression, Inputs(item, latest)) == Some(Value(e, Inputs(item, latest)))
  {
    var e :| Sentence(item.expression, |item.operands|, e);
    BelowIffUses(e, |item.operands|);
    EvaluateIffSentence(item.expression, Inputs(item, latest), Value(e, Inputs(item, latest)));
  }

  /** The operand cannot be used: a constant without a value, or a value of no usable type. */
  predicate Unusable(item: Item, latest: map<nat, PointValue>, i: nat)
    requires i < |item.operands|
  {
    match Current(item.operands[i], i, latest)
    case None => item.operands[i].sourceKind == Constant
    case Some(value) => value == Unsupported || value == Numeric(false)
  }

  /** Nothing has arrived yet for the operand, which is no constant. */
  predicate Missing(item: Item, latest: map<nat, PointValue>, i: nat)
    requires i < |item.operands|
  {
    item.operands[i].sourceKind != Constant && i !in latest
  }

  /** The list has exactly the missing operands before `n`, in order. */
  ghost predicate ListsMissing(item: Item, latest: map<nat, PointValue>, missing: seq<nat>, n: nat)
    requires n <= |item.operands|
  {
    && (forall m: nat :: m in missing <==> m < n && Missing(item, latest, m))
    && (forall j, k :: 0 <= j < k < |missing| ==> missing[j] < missing[k])
  }

  /** The logic branch of the evaluation: operands first, then their types, then the expression. */
  method EvaluateItem(item: Item, latest: map<nat, PointValue>) returns (r: Outcome)
    requires |item.operands| > 0
    ensures Accepted(item) ==> (r.Publish? <==> Ready(item, latest))
    ensures Ready(item, latest) ==>
              r == match Evaluate(item.expression, Inputs(item, latest))
                   case Some(v) => Publish(v)
                   case None => Rejected
    ensures (exists i :: 0 <= i < |item.operands| && Unusable(item, latest, i)) ==> r == Rejected
    ensures (forall i :: 0 <= i < |item.operands| ==> !Unusable(item, latest, i)) ==>
              (r.Waiting? <==> exists i :: 0 <= i < |item.operands| && Missing(item, latest, i))
    ensures r.Waiting? ==> ListsMissing(item, latest, r.missing, |item.operands|)
    ensures !r.Waiting? && !Ready(item, latest) ==> r == Rejected
  {
    var values, missing, ok := ReadOperands(item, latest);
    if !ok {
      return Rejected;
    }
    if missing != [] {
      assert missing[0] in missing && Missing(item, latest, missing[0]) && !ReadyAt(item, latest, missing[0]);
      return Waiting(missing);
    }
    var inputs: seq<bool> := [];
    for i := 0 to |values|
      invariant |inputs| == i
      invariant forall j :: 0 <= j < i ==> values[j] == BoolValue(inputs[j]) && ReadyAt(item, latest, j)
    {
      if !values[i].BoolValue? {
        assert !ReadyAt(item, latest, i);
        return Rejected;
      }
      inputs := inputs + [values[i].b];
    }
    assert inputs == Inputs(item, latest);
    if Accepted(item) {
      AcceptedNeverFails(item, latest);
    }
    var value := EvaluateLogicExpression(item.expression, inputs);
    return match value case Some(v) => Publish(v) case None => Rejected;
  }

  /** The values of the operands and which of them are missing, unless one cannot be used. */
  method ReadOperands(item: Item, latest: map<nat, PointValue>)
    returns (values: seq<PointValue>, missing: seq<nat>, ok: bool)
    ensures ok <==> forall i :: 0 <= i < |item.operands| ==> !Unusable(item, latest, i)
    ensures ok ==> ListsMissing(item, latest, missing, |item.operands|) && |values| == |item.operands|
    ensures ok ==> forall j :: 0 <= j < |values| && j !in missing ==>
              Current(item.operands[j], j, latest) == Some(values[j])
    ensures !ok ==> !Ready(item, latest)
  {
    values, missing, ok := [], [], false;
    for i := 0 to |item.operands|
      invariant |values| == i && ListsMissing(item, latest, missing, i)
      invariant forall j :: 0 <= j < i ==> !Unusable(item, latest, j)
      invariant forall j :: 0 <= j < i && j !in missing ==> Current(item.operands[j], j, latest) == Some(values[j])
    {
      var v := Current(item.operands[i], i, latest);
      assert Unusable(item, latest, i) ==> !ReadyAt(item, latest, i);
      match v {
        case None =>
          if item.operands[i].sourceKind == Constant {
            return;
          }
          assert forall k :: 0 <= k < |missing| ==> missing[k] in missing;
          missing := missing + [i];
          values := values + [Unsupported];
        case Some(value) =>
          if value.Unsupported? || value == Numeric(false) {
            return;
          }
          values := values + [value];
      }
    }
    ok := true;
  }
}
