/** One selected food row: its amount field and its remove button. The
    amount typed by the user is read with `parseInt(value, 10) || 0`. */
module SelectedFood {
  import opened Common
  import opened EcmaParseInt

  /** A food of the dataset; `serving` is optional. */
  datatype Food = Food(name: string, serving: Option<real>)

  datatype SelectedFoodItem = SelectedFoodItem(food: Food, amount: real)

  /** What the row reports to its parent: `onChange(updated)` or
      `onRemove(item)`. */
  datatype Event = AmountChanged(updated: SelectedFoodItem) | RemoveClicked(item: SelectedFoodItem)

  /** `parseInt(value, 10) || 0`: NaN (and ±0) become 0, every other
      integer passes through, negative ones included. */
  function NewAmount(value: string): (n: int)
    ensures ParseInt(value) == NaN ==> n == 0
    ensures ParseInt(value).Int? ==> n == ParseInt(value).value
  {
    match ParseInt(value)
    case NaN => 0
    case Int(v) => if v == 0 then 0 else v
  }

  /** `handleChange`: the same item with only its amount replaced. */
  function HandleChange(selectedFood: SelectedFoodItem, value: string): (e: Event)
    ensures e.AmountChanged?
    ensures e.updated.food == selectedFood.food
    ensures e.updated.amount == NewAmount(value) as real
  {
    AmountChanged(selectedFood.(amount := NewAmount(value) as real))
  }

  /** The remove button reports the row's item unchanged. */
  function HandleRemoveClick(selectedFood: SelectedFoodItem): (e: Event)
    ensures e.RemoveClicked? && e.item == selectedFood
  {
    RemoveClicked(selectedFood)
  }

  /** Only the leading integer counts: an integer numeral followed by
      anything that does not start with a digit gives that integer. */
  lemma NewAmountReadsLeadingInteger(n: int, rest: string)
    requires rest == [] || !IsDigit(rest[0])
    ensures NewAmount(IntToString(n) + rest) == n
  {
    assert "" + IntToString(n) + rest == IntToString(n) + rest;
    ParseIntReadsIntToString("", n, rest);
  }

  /** Inputs without a leading integer give 0. */
  lemma NewAmountOfNonNumbers()
    ensures NewAmount("") == 0
    ensures NewAmount("abc") == 0
  {
    ParseIntNaNWithoutDigits("");
    ParseIntNaNWithoutDigits("abc");
  }

  /** "12abc" and "12.7" both give 12. */
  lemma NewAmountOfTrailingText()
    ensures NewAmount("12abc") == 12
    ensures NewAmount("12.7") == 12
  {
    assert NatToDecimal(12) == NatToDecimal(1) + [DigitChar(2)];
    assert IntToString(12) == "12";
    assert IntToString(12) + "abc" == "12abc";
    assert IntToString(12) + ".7" == "12.7";
    NewAmountReadsLeadingInteger(12, "abc");
    NewAmountReadsLeadingInteger(12, ".7");
  }

  /** A negative number passes through: the field's minimum of 0 is not
      enforced here. */
  lemma NewAmountOfNegative()
    ensures NewAmount("-5") == -5
  {
    assert IntToString(-5) == "-5";
    assert IntToString(-5) + "" == "-5";
    NewAmountReadsLeadingInteger(-5, "");
  }
}
