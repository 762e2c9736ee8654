/** The totals behind the nutrition pie chart: every food of a post is looked
    up by name, case-insensitively, in the nutrition dataset; foods with no
    match are skipped; matched foods add their per-100 g values scaled by
    the amount in grams, with the dataset's storage units converted (fat,
    proteins and carbohydrates divided by 10000, calories multiplied by 100).
    The dataset is a parameter. */
module CaloriesChart {
  import opened Common
  import Text

  /** One record of the nutrition dataset, in its storage units. */
  datatype FoodFact = FoodFact(name: string, fat: real, proteins: real, carbohydrates: real, calories: real)

  /** A food attached to a post and its amount in grams. */
  datatype PostFoodItem = PostFoodItem(foodName: string, amount: real)

  datatype Totals = Totals(totalFat: real, totalProteins: real, totalCarbs: real, totalCalories: real)

  /** One segment of the pie chart. */
  datatype ChartSegment = ChartSegment(nutrient: string, value: real, fill: string)

  const NoTotals := Totals(0.0, 0.0, 0.0, 0.0)

  function Plus(a: Totals, b: Totals): Totals
  {
    Totals(a.totalFat + b.totalFat, a.totalProteins + b.totalProteins,
           a.totalCarbs + b.totalCarbs, a.totalCalories + b.totalCalories)
  }

  /** `f.name.toLowerCase() === name.toLowerCase()`. */
  predicate NameMatches(fact: FoodFact, name: string)
  {
    Text.Lower(fact.name) == Text.Lower(name)
  }

  /** The index of the first dataset record matching `name`, or `|data|`
      when there is none. */
  function FirstMatch(data: seq<FoodFact>, name: string): (i: nat)
    ensures i <= |data|
    ensures i < |data| ==> NameMatches(data[i], name)
    ensures forall j :: 0 <= j < i ==> !NameMatches(data[j], name)
  {
    if data == [] then 0
    else if NameMatches(data[0], name) then 0
    else 1 + FirstMatch(data[1..], name)
  }

  /** `foodsData.find(...)`: the first record whose name matches `name`
      ignoring case, if any. */
  function Lookup(data: seq<FoodFact>, name: string): (r: Option<FoodFact>)
    ensures r.None? <==> forall j :: 0 <= j < |data| ==> !NameMatches(data[j], name)
    ensures r.Some? ==> r.value in data && NameMatches(r.value, name)
  {
    var i := FirstMatch(data, name);
    if i < |data| then Some(data[i]) else None
  }

  /** When several records match, `find` takes the first of them. */
  lemma LookupTakesFirstMatch(data: seq<FoodFact>, name: string)
    ensures Lookup(data, name).Some? ==>
      exists i :: 0 <= i < |data| && data[i] == Lookup(data, name).value && NameMatches(data[i], name) &&
        forall j :: 0 <= j < i ==> !NameMatches(data[j], name)
  {
    var i := FirstMatch(data, name);
    if i < |data| {
      assert data[i] == Lookup(data, name).value;
    }
  }

  /** What one matched record adds for `amount` grams: its stored values,
      converted to display units, scaled by the amount relative to 100 g. */
  function Contribution(fact: FoodFact, amount: real): (c: Totals)
    ensures amount == 0.0 ==> c == NoTotals
  {
    var scale := amount / 100.0;
    Totals(fact.fat / 10000.0 * scale, fact.proteins / 10000.0 * scale,
           fact.carbohydrates / 10000.0 * scale, fact.calories * 100.0 * scale)
  }

  /** In plain units: the stored calories per gram times the grams, and the
      stored fat, proteins and carbohydrates times the grams divided by 10^6. */
  lemma ContributionInGrams(fact: FoodFact, amount: real)
    ensures Contribution(fact, amount).totalCalories == fact.calories * amount
    ensures Contribution(fact, amount).totalFat == fact.fat * amount / 1000000.0
    ensures Contribution(fact, amount).totalProteins == fact.proteins * amount / 1000000.0
    ensures Contribution(fact, amount).totalCarbs == fact.carbohydrates * amount / 1000000.0
  {
  }

  /** What one post food adds: nothing when the dataset has no match. */
  function ItemContribution(data: seq<FoodFact>, item: PostFoodItem): (c: Totals)
    ensures (forall j :: 0 <= j < |data| ==> !NameMatches(data[j], item.foodName)) ==> c == NoTotals
    ensures Lookup(data, item.foodName).Some? ==> c == Contribution(Lookup(data, item.foodName).value, item.amount)
  {
    match Lookup(data, item.foodName)
    case None => NoTotals
    case Some(fact) => Contribution(fact, item.amount)
  }

  /** The sum of the contributions of `foods`, in list order. */
  function Sum(data: seq<FoodFact>, foods: seq<PostFoodItem>): (t: Totals)
    ensures foods == [] ==> t == NoTotals
  {
    if foods == [] then NoTotals
    else Plus(Sum(data, foods[..|foods| - 1]), ItemContribution(data, foods[|foods| - 1]))
  }

  /** The `useMemo` fold of `CaloriesChart`: four accumulators, one pass. */
  method ComputeTotals(data: seq<FoodFact>, foods: seq<PostFoodItem>) returns (totals: Totals)
    ensures totals == Sum(data, foods)
    ensures foods == [] ==> totals == NoTotals
  {
    var totalFat, totalProteins, totalCarbs, totalCalories := 0.0, 0.0, 0.0, 0.0;
    for k := 0 to |foods|
      invariant Totals(totalFat, totalProteins, totalCarbs, totalCalories) == Sum(data, foods[..k])
    {
      var item := foods[k];
      var foodInfo := Lookup(data, item.foodName);
      SumPrefixStep(data, foods, k, foodInfo);
      if foodInfo.Some? {
        // the four `+=` lines: the record's values, converted and scaled
        var c := Contribution(foodInfo.value, item.amount);
        totalFat := totalFat + c.totalFat;
        totalProteins := totalProteins + c.totalProteins;
        totalCarbs := totalCarbs + c.totalCarbs;
        totalCalories := totalCalories + c.totalCalories;
      }
    }
    assert foods[..|foods|] == foods;
    totals := Totals(totalFat, totalProteins, totalCarbs, totalCalories);
  }

  /** One step of the fold: the next food adds the contribution of the
      record its name looks up, or nothing. */
  lemma SumPrefixStep(data: seq<FoodFact>, foods: seq<PostFoodItem>, k: nat, found: Option<FoodFact>)
    requires k < |foods| && found == Lookup(data, foods[k].foodName)
    ensures found.None? ==> Sum(data, foods[..k + 1]) == Sum(data, foods[..k])
    ensures found.Some? ==>
      Sum(data, foods[..k + 1]) == Plus(Sum(data, foods[..k]), Contribution(found.value, foods[k].amount))
  {
    assert foods[..k + 1][..k] == foods[..k];
  }

  /** `chartData`: Fat, Proteins and Carbs, in that order. */
  function ChartData(totals: Totals): (segments: seq<ChartSegment>)
    ensures |segments| == 3
    ensures segments[0].nutrient == "Fat" && segments[0].value == totals.totalFat
    ensures segments[1].nutrient == "Proteins" && segments[1].value == totals.totalProteins
    ensures segments[2].nutrient == "Carbs" && segments[2].value == totals.totalCarbs
  {
    [ ChartSegment("Fat", totals.totalFat, "hsl(10, 70%, 50%)"),
      ChartSegment("Proteins", totals.totalProteins, "hsl(120, 70%, 50%)"),
      ChartSegment("Carbs", totals.totalCarbs, "hsl(220, 70%, 50%)") ]
  }

  /** With an empty dataset no food matches, so every total is zero. */
  lemma {:induction false} SumOfEmptyDataset(foods: seq<PostFoodItem>)
    ensures Sum([], foods) == NoTotals
    decreases |foods|
  {
    if foods != [] {
      SumOfEmptyDataset(foods[..|foods| - 1]);
    }
  }

  /** The total over `a + b` is the total over `a` plus the total over `b`. */
  lemma {:induction false} SumAppend(data: seq<FoodFact>, a: seq<PostFoodItem>, b: seq<PostFoodItem>)
    ensures Sum(data, a + b) == Plus(Sum(data, a), Sum(data, b))
    decreases |b|
  {
    if b == [] {
      assert a + b == a;
    } else {
      var ab, front, last := a + b, b[..|b| - 1], b[|b| - 1];
      assert ab[..|ab| - 1] == a + front;
      assert ab[|ab| - 1] == last;
      var A, F, L := Sum(data, a), Sum(data, front), ItemContribution(data, last);
      assert Sum(data, ab) == Plus(Sum(data, a + front), L);
      SumAppend(data, a, front);
      assert Sum(data, b) == Plus(F, L);
      PlusAssociative(A, F, L);
    }
  }

  lemma SumSingleton(data: seq<FoodFact>, item: PostFoodItem)
    ensures Sum(data, [item]) == ItemContribution(data, item)
  {
    assert [item][..0] == [];
  }

  /** A food with no case-insensitive match in the dataset adds nothing to
      any total, wherever it sits in the list. */
  lemma SumSkipsUnmatched(data: seq<FoodFact>, a: seq<PostFoodItem>, item: PostFoodItem, b: seq<PostFoodItem>)
    requires forall j :: 0 <= j < |data| ==> !NameMatches(data[j], item.foodName)
    ensures Sum(data, a + [item] + b) == Sum(data, a + b)
  {
    var A := Sum(data, a);
    assert ItemContribution(data, item) == NoTotals;
    assert Sum(data, a + [item]) == A by {
      SumAppend(data, a, [item]);
      SumSingleton(data, item);
    }
    SumAppend(data, a + [item], b);
    SumAppend(data, a, b);
  }

  /** The totals do not depend on the order of the foods. */
  lemma {:induction false} SumPermutation(data: seq<FoodFact>, a: seq<PostFoodItem>, b: seq<PostFoodItem>)
    requires multiset(a) == multiset(b)
    ensures Sum(data, a) == Sum(data, b)
    decreases |a|
  {
    if a == [] {
      assert b == [] by { assert |multiset(b)| == 0; }
    } else {
      var n := |a| - 1;
      var x := a[n];
      assert a == a[..n] + [x];
      assert x in multiset(b);
      var k :| 0 <= k < |b| && b[k] == x;
      var rest := b[..k] + b[k + 1..];
      assert b == b[..k] + [x] + b[k + 1..];
      RemoveFromBoth(a[..n], x, b[..k], b[k + 1..]);
      SumPermutation(data, a[..n], rest);
      SumMoveToEnd(data, b[..k], x, b[k + 1..]);
      assert (rest + [x])[..|rest|] == rest;
    }
  }

  /** Taking the same element off two equal multisets leaves equal multisets. */
  lemma RemoveFromBoth<T>(front: seq<T>, x: T, left: seq<T>, right: seq<T>)
    requires multiset(front + [x]) == multiset(left + [x] + right)
    ensures multiset(front) == multiset(left + right)
  {
    calc {
      multiset(front) + multiset{x};
      multiset(front + [x]);
      multiset(left + [x] + right);
      multiset(left) + multiset{x} + multiset(right);
      multiset(left + right) + multiset{x};
    }
    assert multiset(front) == multiset(front) + multiset{x} - multiset{x};
    assert multiset(left + right) == multiset(left + right) + multiset{x} - multiset{x};
  }

  /** Moving one food to the end of the list leaves the totals unchanged. */
  lemma SumMoveToEnd(data: seq<FoodFact>, a: seq<PostFoodItem>, item: PostFoodItem, b: seq<PostFoodItem>)
    ensures Sum(data, a + [item] + b) == Sum(data, a + b + [item])
  {
    var A, B, I := Sum(data, a), Sum(data, b), ItemContribution(data, item);
    assert Sum(data, a + [item] + b) == Plus(Plus(A, I), B) by {
      SumSingleton(data, item);
      SumAppend(data, a + [item], b);
      SumAppend(data, a, [item]);
    }
    assert Sum(data, a + b + [item]) == Plus(Plus(A, B), I) by {
      SumSingleton(data, item);
      SumAppend(data, a + b, [item]);
      SumAppend(data, a, b);
    }
    PlusSwap(A, I, B);
  }

  lemma PlusAssociative(a: Totals, b: Totals, c: Totals)
    ensures Plus(Plus(a, b), c) == Plus(a, Plus(b, c))
  {
  }

  lemma PlusSwap(a: Totals, b: Totals, c: Totals)
    ensures Plus(Plus(a, b), c) == Plus(Plus(a, c), b)
  {
  }

  /** With a dataset of non-negative values and non-negative amounts, every
      chart value and the calorie total are non-negative. */
  lemma {:induction false} SumNonNegative(data: seq<FoodFact>, foods: seq<PostFoodItem>)
    requires forall j :: 0 <= j < |data| ==>
      data[j].fat >= 0.0 && data[j].proteins >= 0.0 && data[j].carbohydrates >= 0.0 && data[j].calories >= 0.0
    requires forall k :: 0 <= k < |foods| ==> foods[k].amount >= 0.0
    ensures var t := Sum(data, foods);
      t.totalFat >= 0.0 && t.totalProteins >= 0.0 && t.totalCarbs >= 0.0 && t.totalCalories >= 0.0
  {
    if foods != [] {
      var item := foods[|foods| - 1];
      SumNonNegative(data, foods[..|foods| - 1]);
      var found := Lookup(data, item.foodName);
      if found.Some? {
        var fact := found.value;
        assert fact in data;
        ContributionNonNegative(fact, item.amount);
      }
    }
  }

  lemma ContributionNonNegative(fact: FoodFact, amount: real)
    requires fact.fat >= 0.0 && fact.proteins >= 0.0 && fact.carbohydrates >= 0.0 && fact.calories >= 0.0
    requires amount >= 0.0
    ensures var c := Contribution(fact, amount);
      c.totalFat >= 0.0 && c.totalProteins >= 0.0 && c.totalCarbs >= 0.0 && c.totalCalories >= 0.0
  {
    var scale := amount / 100.0;
    assert scale >= 0.0;
    assert fact.fat / 10000.0 * scale >= 0.0;
    assert fact.proteins / 10000.0 * scale >= 0.0;
    assert fact.carbohydrates / 10000.0 * scale >= 0.0;
    assert fact.calories * 100.0 * scale >= 0.0;
  }
}
