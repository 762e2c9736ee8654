/** The food picker of the post editor: a search field over the foods not
    yet chosen, and the list of chosen foods with their amounts. Three pieces
    of state are kept in step: the available foods, the selected foods and
    the search term. */
module FoodSearchBar {
  import opened Common
  import Text
  import opened SelectedFood

  /** The amount a newly selected food starts with when it has no serving size. */
  const DefaultAmount: real := 100.0

  function FoodName(f: Food): string { f.name }

  function ItemName(sf: SelectedFoodItem): string { sf.food.name }

  /** `food.serving || 100`: the serving size when it is present and not 0. */
  function InitialAmount(food: Food): (amount: real)
    ensures amount != 0.0
    ensures food.serving.Some? && food.serving.value != 0.0 ==> amount == food.serving.value
    ensures food.serving.None? || food.serving.value == 0.0 ==> amount == DefaultAmount
  {
    match food.serving
    case Some(s) => if s != 0.0 then s else DefaultAmount
    case None => DefaultAmount
  }

  /** The search test: the lower-cased name includes the lower-cased term. */
  predicate MatchesSearch(food: Food, searchTerm: string)
  {
    Text.Includes(Text.Lower(food.name), Text.Lower(searchTerm))
  }

  /** `filteredFoods`. */
  function FilteredFoods(availableFoods: seq<Food>, searchTerm: string): (r: seq<Food>)
    ensures forall f :: f in r <==> f in availableFoods && MatchesSearch(f, searchTerm)
    ensures IsSubsequence(r, availableFoods)
  {
    Filter(availableFoods, f => MatchesSearch(f, searchTerm))
  }

  /** The term, ignoring case, occurs somewhere in the name. */
  ghost predicate ContainsIgnoringCase(name: string, term: string)
  {
    exists i :: Text.OccursAt(Text.Lower(name), Text.Lower(term), i)
  }

  /** A food is offered for a term exactly when the term, ignoring case,
      occurs somewhere in its name. */
  lemma FilteredFoodsMeaning(availableFoods: seq<Food>, searchTerm: string, f: Food)
    ensures f in FilteredFoods(availableFoods, searchTerm) <==>
      f in availableFoods && ContainsIgnoringCase(f.name, searchTerm)
  {
    var name, term := Text.Lower(f.name), Text.Lower(searchTerm);
    Text.IncludesIffOccurs(name, term);
    assert MatchesSearch(f, searchTerm) <==> ContainsIgnoringCase(f.name, searchTerm);
  }

  /** The empty search term offers every available food, in order. */
  lemma EmptySearchOffersAll(availableFoods: seq<Food>)
    ensures FilteredFoods(availableFoods, "") == availableFoods
  {
    forall i | 0 <= i < |availableFoods| ensures MatchesSearch(availableFoods[i], "") {
      var name := Text.Lower(availableFoods[i].name);
      assert Text.Lower("") == "";
      assert name[..0] == "";
    }
    FilterKeepsAll(availableFoods, (g: Food) => MatchesSearch(g, ""));
  }

  /** `prev.filter(f => f.name !== name)`. */
  function WithoutFood(foods: seq<Food>, name: string): (r: seq<Food>)
    ensures forall f :: f in r <==> f in foods && f.name != name
    ensures IsSubsequence(r, foods)
  {
    Filter(foods, (f: Food) => f.name != name)
  }

  /** `selectedFoods.filter(sf => sf.food.name !== name)`. */
  function WithoutItem(items: seq<SelectedFoodItem>, name: string): (r: seq<SelectedFoodItem>)
    ensures forall sf :: sf in r <==> sf in items && sf.food.name != name
    ensures IsSubsequence(r, items)
  {
    Filter(items, (sf: SelectedFoodItem) => sf.food.name != name)
  }

  /** `selectedFoods.map(sf => sf.food.name === u.food.name ? u : sf)`. */
  function ReplaceByName(items: seq<SelectedFoodItem>, u: SelectedFoodItem): (r: seq<SelectedFoodItem>)
    ensures |r| == |items|
    ensures forall i :: 0 <= i < |items| && items[i].food.name == u.food.name ==> r[i] == u
    ensures forall i :: 0 <= i < |items| && items[i].food.name != u.food.name ==> r[i] == items[i]
  {
    if items == [] then []
    else [if items[0].food.name == u.food.name then u else items[0]] + ReplaceByName(items[1..], u)
  }

  /** Every food name is in exactly one place, at most once. */
  ghost predicate Consistent(available: seq<Food>, selected: seq<SelectedFoodItem>)
  {
    && DistinctKeys(available, FoodName)
    && DistinctKeys(selected, ItemName)
    && forall f, sf :: f in available && sf in selected ==> f.name != sf.food.name
  }

  /** Selecting an available food keeps every name in one place. */
  lemma SelectKeepsNamesConsistent(available: seq<Food>, selected: seq<SelectedFoodItem>, food: Food)
    requires Consistent(available, selected) && food in available
    ensures Consistent(WithoutFood(available, food.name), selected + [SelectedFoodItem(food, InitialAmount(food))])
  {
    var newItem := SelectedFoodItem(food, InitialAmount(food));
    var available', selected' := WithoutFood(available, food.name), selected + [newItem];
    FilterDistinct(available, (f: Food) => f.name != food.name, FoodName);
    forall i, j | 0 <= i < j < |selected'| ensures ItemName(selected'[i]) != ItemName(selected'[j]) {
      if j == |selected'| - 1 {
        assert selected'[i] == selected[i] && selected'[i] in selected;
      } else {
        assert selected'[i] == selected[i] && selected'[j] == selected[j];
      }
    }
    forall f, sf | f in available' && sf in selected' ensures f.name != sf.food.name {
      if sf != newItem {
        assert sf in selected;
      }
    }
  }

  /** Removing a selected row keeps every name in one place. */
  lemma RemoveKeepsNamesConsistent(available: seq<Food>, selected: seq<SelectedFoodItem>, item: SelectedFoodItem)
    requires Consistent(available, selected) && item in selected
    ensures Consistent(available + [item.food], WithoutItem(selected, item.food.name))
  {
    var available', selected' := available + [item.food], WithoutItem(selected, item.food.name);
    FilterDistinct(selected, (sf: SelectedFoodItem) => sf.food.name != item.food.name, ItemName);
    forall i, j | 0 <= i < j < |available'| ensures FoodName(available'[i]) != FoodName(available'[j]) {
      if j == |available'| - 1 {
        assert available'[i] == available[i] && available'[i] in available;
      } else {
        assert available'[i] == available[i] && available'[j] == available[j];
      }
    }
    forall f, sf | f in available' && sf in selected' ensures f.name != sf.food.name {
      if f != item.food {
        assert f in available;
      }
    }
  }

  /** The food picker's state. */
  class SearchBar {
    var availableFoods: seq<Food>
    var selectedFoods: seq<SelectedFoodItem>
    var searchTerm: string

    ghost predicate NamesConsistent()
      reads this
    {
      Consistent(availableFoods, selectedFoods)
    }

    /** The picker after its mount effect has loaded the dataset. */
    constructor (foodsData: seq<Food>)
      ensures availableFoods == foodsData && selectedFoods == [] && searchTerm == ""
      ensures DistinctKeys(foodsData, FoodName) ==> NamesConsistent()
    {
      availableFoods := foodsData;
      selectedFoods := [];
      searchTerm := "";
    }

    function Filtered(): seq<Food>
      reads this
    {
      FilteredFoods(availableFoods, searchTerm)
    }

    /** Typing in the search field. */
    method SetSearchTerm(value: string)
      modifies this
      ensures searchTerm == value
      ensures availableFoods == old(availableFoods) && selectedFoods == old(selectedFoods)
    {
      searchTerm := value;
    }

    /** `handleSelect`: the food leaves the available list (every entry of
        that name), is appended to the selection with its initial amount,
        the search is cleared and the new selection is reported. */
    method HandleSelect(food: Food) returns (reported: seq<SelectedFoodItem>)
      modifies this
      ensures availableFoods == WithoutFood(old(availableFoods), food.name)
      ensures selectedFoods == old(selectedFoods) + [SelectedFoodItem(food, InitialAmount(food))]
      ensures searchTerm == ""
      ensures reported == selectedFoods
      ensures old(NamesConsistent()) && food in old(availableFoods) ==> NamesConsistent()
    {
      ghost var wasConsistent := NamesConsistent();
      if wasConsistent && food in availableFoods {
        SelectKeepsNamesConsistent(availableFoods, selectedFoods, food);
      }
      availableFoods := WithoutFood(availableFoods, food.name);
      var updated := selectedFoods + [SelectedFoodItem(food, InitialAmount(food))];
      selectedFoods := updated;
      reported := updated;
      searchTerm := "";
    }

    /** `handleRemove`: every selected entry of that food name is dropped,
        the selection is reported, and the food is appended to the
        available list. */
    method HandleRemove(item: SelectedFoodItem) returns (reported: seq<SelectedFoodItem>)
      modifies this
      ensures selectedFoods == WithoutItem(old(selectedFoods), item.food.name)
      ensures availableFoods == old(availableFoods) + [item.food]
      ensures searchTerm == old(searchTerm)
      ensures reported == selectedFoods
      ensures old(NamesConsistent()) && item in old(selectedFoods) ==> NamesConsistent()
    {
      ghost var wasConsistent := NamesConsistent();
      if wasConsistent && item in selectedFoods {
        RemoveKeepsNamesConsistent(availableFoods, selectedFoods, item);
      }
      var updated := WithoutItem(selectedFoods, item.food.name);
      selectedFoods := updated;
      reported := updated;
      availableFoods := availableFoods + [item.food];
    }

    /** `handleAmountChange`: the entries named like the updated item are
        replaced by it, all others stay, and the selection is reported. */
    method HandleAmountChange(updatedItem: SelectedFoodItem) returns (reported: seq<SelectedFoodItem>)
      modifies this
      ensures selectedFoods == ReplaceByName(old(selectedFoods), updatedItem)
      ensures availableFoods == old(availableFoods) && searchTerm == old(searchTerm)
      ensures reported == selectedFoods
      ensures old(NamesConsistent()) ==> NamesConsistent()
    {
      var updated := ReplaceByName(selectedFoods, updatedItem);
      selectedFoods := updated;
      reported := updated;
    }
  }

  /** Selecting a food and then removing it restores the selection exactly
      (given the food was not selected yet). */
  lemma SelectThenRemoveRestoresSelection(selectedFoods: seq<SelectedFoodItem>, food: Food)
    requires forall j :: 0 <= j < |selectedFoods| ==> selectedFoods[j].food.name != food.name
    ensures WithoutItem(selectedFoods + [SelectedFoodItem(food, InitialAmount(food))], food.name) == selectedFoods
  {
    var item := SelectedFoodItem(food, InitialAmount(food));
    var keepItem := (sf: SelectedFoodItem) => sf.food.name != food.name;
    FilterAppend(selectedFoods, [item], keepItem);
    FilterKeepsAll(selectedFoods, keepItem);
    FilterDropsAll([item], keepItem);
  }

  /** Selecting the food at index `k` of a list with distinct names and then
      removing it restores the available list up to position: the food has
      moved to the end. */
  lemma SelectThenRemoveRestoresAvailable(availableFoods: seq<Food>, k: nat)
    requires k < |availableFoods|
    requires DistinctKeys(availableFoods, FoodName)
    ensures var food := availableFoods[k];
      WithoutFood(availableFoods, food.name) + [food] == availableFoods[..k] + availableFoods[k + 1..] + [food]
  {
    var food := availableFoods[k];
    var keepFood := (f: Food) => f.name != food.name;
    var front, back := availableFoods[..k], availableFoods[k + 1..];
    assert availableFoods == front + [food] + back;
    forall i | 0 <= i < |front| ensures keepFood(front[i]) {
      assert FoodName(availableFoods[i]) != FoodName(availableFoods[k]);
    }
    forall i | 0 <= i < |back| ensures keepFood(back[i]) {
      assert back[i] == availableFoods[k + 1 + i];
      assert FoodName(availableFoods[k]) != FoodName(availableFoods[k + 1 + i]);
    }
    FilterAroundOne(front, food, back, keepFood);
  }

  /** Editing the amount field of one row, with distinct names in the
      selection, changes that row's amount and nothing else. */
  lemma AmountEditChangesOneRow(selectedFoods: seq<SelectedFoodItem>, k: nat, value: string)
    requires k < |selectedFoods|
    requires DistinctKeys(selectedFoods, ItemName)
    ensures ReplaceByName(selectedFoods, HandleChange(selectedFoods[k], value).updated)
         == selectedFoods[k := selectedFoods[k].(amount := NewAmount(value) as real)]
  {
    var u := HandleChange(selectedFoods[k], value).updated;
    var r := ReplaceByName(selectedFoods, u);
    var t := selectedFoods[k := selectedFoods[k].(amount := NewAmount(value) as real)];
    assert u == t[k];
    forall i | 0 <= i < |selectedFoods| ensures r[i] == t[i] {
      if i < k {
        assert ItemName(selectedFoods[i]) != ItemName(selectedFoods[k]);
      } else if i > k {
        assert ItemName(selectedFoods[k]) != ItemName(selectedFoods[i]);
      }
    }
    assert |r| == |t|;
  }
}
