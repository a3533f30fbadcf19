/** Solution values: fee times capped support, then fee times support, compared lexicographically. */
module Values {

  datatype Option<+T> = None | Some(value: T)

  datatype Value = Value(capped: nat, uncapped: nat)

  const ZERO := Value(0, 0)

  predicate Less(a: Value, b: Value)
  {
    a.capped < b.capped || (a.capped == b.capped && a.uncapped < b.uncapped)
  }

  /** Three-way comparison: negative, zero or positive as `a` is below, equal to or above `b`. */
  function Cmp(a: Value, b: Value): (c: int)
    ensures c == -1 <==> Less(a, b)
    ensures c == 1 <==> Less(b, a)
    ensures c == 0 <==> a == b
  {
    if a.capped != b.capped then (if a.capped < b.capped then -1 else 1)
    else if a.uncapped < b.uncapped then -1
    else if a.uncapped > b.uncapped then 1
    else 0
  }

  function Min(a: nat, b: nat): nat { if a < b then a else b }

  /** Four fifths of the total weight, rounded up. */
  function WeightCap(total: nat): nat { (4 * total + 4) / 5 }

  /** The product, defined by repeated addition so that nothing but the lemmas below depends on non-linear arithmetic. */
  function Times(a: nat, b: nat): nat
  {
    if a == 0 then 0 else b + Times(a - 1, b)
  }

  lemma {:induction false} TimesIsProduct(a: nat, b: nat)
    ensures Times(a, b) == a * b
  {
    if a > 0 {
      TimesIsProduct(a - 1, b);
      assert a * b == b + (a - 1) * b;
    }
  }

  function CalcValue(feeSum: nat, weight: nat, total: nat): Value
  {
    Value(Times(feeSum, Min(WeightCap(total), weight)), Times(feeSum, weight))
  }

  lemma {:induction false} TimesMono(a: nat, b: nat, c: nat, d: nat)
    requires a <= c && b <= d
    ensures Times(a, b) <= Times(c, d)
  {
    if a > 0 {
      TimesMono(a - 1, b, c - 1, d);
    }
  }

  lemma {:induction false} TimesStrict(a: nat, b: nat, d: nat)
    requires a > 0 && b < d
    ensures Times(a, b) < Times(a, d)
  {
    if a > 1 {
      TimesStrict(a - 1, b, d);
    }
  }

  /** The cap is the least weight that is at least four fifths of the total. */
  lemma WeightCapIsLeast(total: nat, weight: nat)
    ensures weight >= WeightCap(total) <==> 5 * weight >= 4 * total
  {
  }

  /** The value in ordinary arithmetic: fee times support, where support counts only up to four fifths of the total in the
      first component and in full in the second. */
  lemma CalcValueProducts(feeSum: nat, weight: nat, total: nat)
    ensures var v := CalcValue(feeSum, weight, total);
            && v.uncapped == feeSum * weight
            && (5 * weight <= 4 * total ==> v.capped == feeSum * weight)
            && (5 * weight >= 4 * total ==> v.capped == feeSum * WeightCap(total))
  {
    TimesIsProduct(feeSum, weight);
    TimesIsProduct(feeSum, WeightCap(total));
  }

  /** More fees and more support never lower the value: the pruning bound rests on this. From four fifths of the total on,
      more support does not raise the first component. */
  lemma CalcValueMono(fee: nat, weight: nat, fee': nat, weight': nat, total: nat)
    requires fee <= fee' && weight <= weight'
    ensures !Less(CalcValue(fee', weight', total), CalcValue(fee, weight, total))
    ensures fee == fee' && 5 * weight >= 4 * total
            ==> CalcValue(fee', weight', total).capped == CalcValue(fee, weight, total).capped
  {
    TimesMono(fee, Min(WeightCap(total), weight), fee', Min(WeightCap(total), weight'));
    TimesMono(fee, weight, fee', weight');
  }

  /** A set without fees is worth nothing, whoever backs it. */
  lemma NoFeeNoValue(weight: nat, total: nat)
    ensures CalcValue(0, weight, total) == ZERO
  {
  }

  lemma CalcValueSame(fee: nat, weight: nat, fee': nat, weight': nat, total: nat)
    requires fee == fee' && weight == weight'
    ensures CalcValue(fee, weight, total) == CalcValue(fee', weight', total)
  {
  }

  /** With a positive fee, strictly more support is strictly better, even beyond the cap; the first component shows it
      exactly if the smaller support is below four fifths of the total. */
  lemma CalcValueStrict(fee: nat, weight: nat, weight': nat, total: nat)
    requires fee > 0 && weight < weight'
    ensures Less(CalcValue(fee, weight, total), CalcValue(fee, weight', total))
    ensures CalcValue(fee, weight, total).capped < CalcValue(fee, weight', total).capped <==> 5 * weight < 4 * total
  {
    var low, high := Min(WeightCap(total), weight), Min(WeightCap(total), weight');
    TimesMono(fee, low, fee, high);
    TimesStrict(fee, weight, weight');
    if low < high {
      TimesStrict(fee, low, high);
    }
  }

  /** Fees decide once four fifths of the total weight are reached, then weight does. */
  lemma FourFifthsAreWorth(fee: nat, weight: nat, fee': nat, weight': nat, total: nat)
    requires total > 0 && 5 * weight >= 4 * total
    ensures fee > fee' || (fee == fee' > 0 && weight > weight')
            ==> Less(CalcValue(fee', weight', total), CalcValue(fee, weight, total))
  {
    var cap := WeightCap(total);
    if fee > fee' {
      TimesMono(fee', Min(cap, weight'), fee - 1, cap);
      assert Times(fee, cap) == cap + Times(fee - 1, cap);
    } else if fee == fee' > 0 && weight > weight' {
      CalcValueStrict(fee, weight', weight, total);
    }
  }
}
