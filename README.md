# MealMate core, modelled in Dafny

MealMate is a recipe-sharing web application. Users post meals made of foods
from a nutrition dataset, and they bookmark posts onto days of a weekly meal
plan. This project models six parts of it and proves properties of each:

- **Session lifecycle** (`auth.dfy`, module `Auth`). A table of sessions is
  keyed by the hashed session token. A session lives 30 days. It is deleted
  when it is used after its expiry, and it is renewed to 30 days when it is
  used with 15 days or less left. `validateRequest` reads the cookie and then
  refreshes or deletes it.
- **Nutrition totals** (`calories_chart.dfy`, module `CaloriesChart`). Each
  food of a post is looked up by name, ignoring case. Unmatched foods are
  skipped. Matched foods add their scaled values to four totals, and three
  of those totals feed the pie chart.
- **Food picker** (`food_search_bar.dfy`, module `FoodSearchBar`). The
  picker keeps three pieces of state: the available foods, the selected foods
  and the search term. The model covers the search filter and the select,
  remove and amount-change handlers.
- **Selected food row** (`selected_food.dfy`, module `SelectedFood`). A typed
  amount is read with `parseInt(value, 10) || 0`. `parseInt` itself is
  modelled in `ecma_parse_int.dfy` (module `EcmaParseInt`) as section 19.2.5
  of ECMA-262 defines it.
- **Bookmarks by day** (`bookmarked_by_day.dfy`, module `BookmarkedByDay`).
  This route returns 401 without a logged-in user. Otherwise it groups the
  user's bookmarked posts by meal-plan day, and a bookmark without a day goes
  to `"NO_DAY"`.
- **Bookmark button** (`bookmark_button.dfy`, module `BookmarkButton`). The
  button keeps one cached entry `{isBookmarkedByUser, day}` per post. Each
  create, update or remove mutation writes that entry optimistically and
  rolls it back when the request fails. The model also covers the day-click
  dispatch, the label and the menu.

Three modules are shared:

- `Common` holds `Option` and an order-preserving `Filter`, with its lemmas.
- `Text` holds ASCII lower-casing and `includes`.
- `EcmaParseInt` holds `parseInt`.

Where the source keeps state that is updated in place, the model uses a
class:

- the session table: `Auth.SessionStore`;
- the picker's React state: `FoodSearchBar.SearchBar`;
- the react-query cache entry: `BookmarkButton.BookmarkCache`.

Each class method is proved against a pure function of the old state:
`NewSession`, `ValidateInTable`, map difference (for `InvalidateSession`),
`WithoutUser`, `InitialAmount`, `WithoutFood`, `WithoutItem`,
`ReplaceByName`, `Optimistic`, `Rollback` and `AfterMutation`. The properties are proved about those
functions.

The two loops of the source are modelled as loops:

- The totals fold is `CaloriesChart.ComputeTotals`, proved equal to `Sum`.
- The grouping loop is `BookmarkedByDay.GroupByDay`. It is proved equal to
  `GroupFold`, which in turn is proved equal to `Grouping`. `Grouping` is the
  declarative dictionary: each day that occurs maps to the posts of that
  day's bookmarks, in order.

One place where the comments and the code disagree: the comment in
`src/auth.ts` says a session is renewed when "less than 15 days" remain. The
code renews when `now >= expiresAt - 15 days`, which includes exactly 15
days. The model follows the code.

## Model

| member | source | states |
|---|---|---|
| Auth.NewSession | src/auth.ts:19-29 | a new session is stored under its id for its user and expires exactly 30 days (2592000000 ms) after creation |
| Auth.ValidateInTable | src/auth.ts:39-62 | unknown id: no session and no change; expired, with the expiry instant counting as expired: no session and the row is deleted; validated iff the id is present and unexpired. A validated session keeps its id and user and expires after now, never earlier than before. With 15 days or less left it is renewed to now + 30 days and stored back; otherwise it is returned and stored unchanged. No other row changes, no row is added, and every row stays stored under its own id |
| Auth.WithoutUser | src/auth.ts:70-72 | exactly the rows of other users remain, unchanged |
| Auth.ValidateFreshSession | src/auth.ts:19-62 | a new session validates unchanged during its first 15 days, is renewed to now + 30 days during the next 15, and is rejected from its expiry on |
| Auth.NoValidationAfterInvalidateAll | src/auth.ts:39-72 | after all sessions of a user are invalidated, no token validates to that user |
| Auth.SessionStore.constructor | src/auth.ts:17-29 | the store starts with an empty session table and hashes tokens with the given function |
| Auth.SessionStore.CreateSession | src/auth.ts:19-29 | inserts the new session under the token's hash; a taken id is a failed insert that changes nothing |
| Auth.SessionStore.ValidateSessionToken | src/auth.ts:39-62 | result and new table are those of `ValidateInTable` for the token's hash |
| Auth.SessionStore.InvalidateSession | src/auth.ts:65-67 | the row is removed; reports failure exactly when no such row existed |
| Auth.SessionStore.InvalidateAllSessions | src/auth.ts:70-72 | the table becomes `WithoutUser` of the old table |
| Auth.SessionStore.ValidateRequest | src/auth.ts:104-119 | a missing or empty cookie gives no session and changes nothing; otherwise the token is validated, and the cookie is set to the session's new expiry when valid or deleted when not |
| Common.Filter | src/components/foods/FoodSearchBar.tsx:20-22 | keeps exactly the elements satisfying the predicate, with their multiplicities, in their original order |
| Text.LowerChar | src/components/posts/CaloriesChart.tsx:43 | maps A-Z to a-z and leaves every other character unchanged |
| Text.Lower | src/components/posts/CaloriesChart.tsx:43 | lower-cases every character, keeping the length |
| Text.Includes | src/components/foods/FoodSearchBar.tsx:21 | the empty term is included in every string, and a term longer than the string never is |
| Text.IncludesIffOccurs | src/components/foods/FoodSearchBar.tsx:21 | `includes` holds iff the term occurs at some position of the string |
| CaloriesChart.FirstMatch | src/components/posts/CaloriesChart.tsx:42-44 | the index of the first dataset record whose name equals the food name ignoring case; no earlier record matches |
| CaloriesChart.Lookup | src/components/posts/CaloriesChart.tsx:42-45 | none iff no record matches ignoring case; otherwise a matching record of the dataset |
| CaloriesChart.LookupTakesFirstMatch | src/components/posts/CaloriesChart.tsx:42-44 | the record found is the first one that matches ignoring case |
| CaloriesChart.Contribution | src/components/posts/CaloriesChart.tsx:46-50 | zero grams add nothing; its closed form is `ContributionInGrams` |
| CaloriesChart.ItemContribution | src/components/posts/CaloriesChart.tsx:42-50 | a food with no case-insensitive match adds nothing; a matched food adds the contribution of the record `find` returns |
| CaloriesChart.Sum | src/components/posts/CaloriesChart.tsx:34-53 | no foods give all-zero totals |
| CaloriesChart.SumOfEmptyDataset | src/components/posts/CaloriesChart.tsx:34-53 | with an empty nutrition dataset every total is zero, whatever the foods |
| CaloriesChart.ContributionInGrams | src/components/posts/CaloriesChart.tsx:46-50 | a record adds calories × grams, and fat, proteins and carbohydrates × grams / 10^6 |
| CaloriesChart.ComputeTotals | src/components/posts/CaloriesChart.tsx:34-54 | the four-accumulator loop computes `Sum` over the post's foods, all zero for no foods |
| CaloriesChart.ChartData | src/components/posts/CaloriesChart.tsx:57-61 | three segments, Fat, Proteins and Carbs in that order, carrying the matching totals |
| CaloriesChart.SumAppend | src/components/posts/CaloriesChart.tsx:40-51 | the totals of a concatenation are the sum of the totals of its parts |
| CaloriesChart.SumPrefixStep | src/components/posts/CaloriesChart.tsx:40-51 | one more food adds the scaled values of the record its name looks up to the totals of the foods before it, and nothing when no record matches |
| CaloriesChart.SumSingleton | src/components/posts/CaloriesChart.tsx:40-51 | the totals of one food are that food's contribution |
| CaloriesChart.SumSkipsUnmatched | src/components/posts/CaloriesChart.tsx:45 | a food with no match in the dataset changes no total, wherever it sits |
| CaloriesChart.SumMoveToEnd | src/components/posts/CaloriesChart.tsx:40-51 | moving one food to the end of the list leaves the totals unchanged |
| CaloriesChart.SumPermutation | src/components/posts/CaloriesChart.tsx:40-51 | any two lists with the same foods as multisets have the same totals |
| CaloriesChart.SumNonNegative | src/components/posts/CaloriesChart.tsx:34-54 | a non-negative dataset and non-negative amounts give non-negative totals |
| CaloriesChart.ContributionNonNegative | src/components/posts/CaloriesChart.tsx:46-50 | a non-negative record and amount give a non-negative contribution |
| EcmaParseInt.ParseInt | src/components/foods/SelectedFood.tsx:24 | NaN exactly when no decimal digit follows the leading white space and the optional sign; never negative without a minus sign |
| EcmaParseInt.TrimStart | src/components/foods/SelectedFood.tsx:24 | the result is the suffix left once all leading white space and line terminators are removed |
| EcmaParseInt.LeadingDigits | src/components/foods/SelectedFood.tsx:24 | the longest prefix made of decimal digits |
| EcmaParseInt.NatToDecimalValue | src/components/foods/SelectedFood.tsx:24 | the decimal numeral of n reads back as n |
| EcmaParseInt.ParseIntSkipsWhiteSpace | src/components/foods/SelectedFood.tsx:24 | leading white space never changes what `parseInt` reads |
| EcmaParseInt.ParseIntReadsIntToString | src/components/foods/SelectedFood.tsx:24 | round trip: `parseInt` of white space, the decimal form of any integer, then a non-digit tail gives that integer |
| EcmaParseInt.ParseIntReadsNumeral | src/components/foods/SelectedFood.tsx:24 | the decimal form of any integer, followed by a non-digit tail, reads back as that integer |
| EcmaParseInt.ParseIntNaNWithoutDigits | src/components/foods/SelectedFood.tsx:24 | all white space, or text starting with a non-digit that is neither a sign nor white space, gives NaN |
| SelectedFood.NewAmount | src/components/foods/SelectedFood.tsx:24 | NaN becomes 0; any integer `parseInt` reads is kept |
| SelectedFood.HandleChange | src/components/foods/SelectedFood.tsx:23-26 | reports the same food with only its amount replaced by the parsed amount |
| SelectedFood.HandleRemoveClick | src/components/foods/SelectedFood.tsx:40-42 | reports removal of the row's item, unchanged |
| SelectedFood.NewAmountReadsLeadingInteger | src/components/foods/SelectedFood.tsx:24 | an integer numeral followed by a non-digit gives that integer |
| SelectedFood.NewAmountOfNonNumbers | src/components/foods/SelectedFood.tsx:24 | "" and "abc" give 0 |
| SelectedFood.NewAmountOfTrailingText | src/components/foods/SelectedFood.tsx:24 | "12abc" and "12.7" give 12 |
| SelectedFood.NewAmountOfNegative | src/components/foods/SelectedFood.tsx:23-38 | "-5" gives -5: the field's `min={0}` is not enforced by the handler |
| FoodSearchBar.InitialAmount | src/components/foods/FoodSearchBar.tsx:28 | the serving size when present and non-zero, else 100; never 0 |
| FoodSearchBar.FilteredFoods | src/components/foods/FoodSearchBar.tsx:20-22 | exactly the available foods that match the search, in their original order |
| FoodSearchBar.FilteredFoodsMeaning | src/components/foods/FoodSearchBar.tsx:20-22 | a food is offered iff it is available and the term, lower-cased, occurs in its lower-cased name |
| FoodSearchBar.EmptySearchOffersAll | src/components/foods/FoodSearchBar.tsx:20-22 | `filteredFoods` of the empty term is the whole available list, in order (the list itself is rendered only for a non-empty term) |
| FoodSearchBar.WithoutFood | src/components/foods/FoodSearchBar.tsx:25 | exactly the foods of another name remain, in their original order |
| FoodSearchBar.WithoutItem | src/components/foods/FoodSearchBar.tsx:37 | exactly the selected rows of another food name remain, in their original order |
| FoodSearchBar.ReplaceByName | src/components/foods/FoodSearchBar.tsx:44-46 | same length; rows named like the update become the update, and all others are kept |
| FoodSearchBar.SelectKeepsNamesConsistent | src/components/foods/FoodSearchBar.tsx:24-34 | selecting an available food from a consistent picker leaves every food name in exactly one place, at most once |
| FoodSearchBar.RemoveKeepsNamesConsistent | src/components/foods/FoodSearchBar.tsx:36-41 | removing a selected row from a consistent picker leaves every food name in exactly one place, at most once |
| FoodSearchBar.SearchBar.constructor | src/components/foods/FoodSearchBar.tsx:11-18 | after mount the dataset is available, nothing is selected and the term is empty; names are consistent when the dataset's names are distinct |
| FoodSearchBar.SearchBar.SetSearchTerm | src/components/foods/FoodSearchBar.tsx:57 | only the term changes |
| FoodSearchBar.SearchBar.HandleSelect | src/components/foods/FoodSearchBar.tsx:24-34 | all foods of that name leave the available list; the item is appended with its initial amount; the term is cleared; the new selection is reported; the names stay consistent |
| FoodSearchBar.SearchBar.HandleRemove | src/components/foods/FoodSearchBar.tsx:36-41 | all selected rows of that name are dropped; the food is appended to the available list; the term is kept; the new selection is reported; the names stay consistent |
| FoodSearchBar.SearchBar.HandleAmountChange | src/components/foods/FoodSearchBar.tsx:43-49 | the selection becomes `ReplaceByName`; nothing else changes; the names stay consistent |
| FoodSearchBar.SelectThenRemoveRestoresSelection | src/components/foods/FoodSearchBar.tsx:24-41 | selecting a food that is not selected yet and then removing it restores the selection exactly |
| FoodSearchBar.SelectThenRemoveRestoresAvailable | src/components/foods/FoodSearchBar.tsx:24-41 | with distinct names, select then remove gives back the same available foods, with the chosen one moved to the end |
| FoodSearchBar.AmountEditChangesOneRow | src/components/foods/FoodSearchBar.tsx:43-49 | with distinct names, editing one row's amount changes that row's amount and nothing else |
| BookmarkedByDay.DayKey | src/app/api/posts/bookmarked-by-day/route.ts:31 | a non-empty day is its own key; a null or empty day gives "NO_DAY" |
| BookmarkedByDay.Posts | src/app/api/posts/bookmarked-by-day/route.ts:35 | the posts of the bookmarks, position by position |
| BookmarkedByDay.BookmarksOfDay | src/app/api/posts/bookmarked-by-day/route.ts:30-36 | exactly the bookmarks with that key, in their original order |
| BookmarkedByDay.DayKeysMeaning | src/app/api/posts/bookmarked-by-day/route.ts:30-36 | a key is present iff some bookmark has it |
| BookmarkedByDay.PostsOfDaySnoc | src/app/api/posts/bookmarked-by-day/route.ts:35 | one more bookmark appends its post to its own group and to no other |
| BookmarkedByDay.PostsOfAbsentDay | src/app/api/posts/bookmarked-by-day/route.ts:32-35 | a key that does not occur has no posts |
| BookmarkedByDay.AddToGroup | src/app/api/posts/bookmarked-by-day/route.ts:32-35 | one step adds the key, appends the post to its group (created empty when missing) and leaves every other group unchanged |
| BookmarkedByDay.GroupingSnoc | src/app/api/posts/bookmarked-by-day/route.ts:30-36 | the dictionary for one more bookmark is the old one with that step applied |
| BookmarkedByDay.GroupFoldIsGrouping | src/app/api/posts/bookmarked-by-day/route.ts:28-36 | the loop's steps, starting from an empty dictionary, build exactly the dictionary from each key that occurs to its posts in order |
| BookmarkedByDay.GroupByDay | src/app/api/posts/bookmarked-by-day/route.ts:28-36 | the loop returns that dictionary, which is empty for no bookmarks |
| BookmarkedByDay.Get | src/app/api/posts/bookmarked-by-day/route.ts:6-39 | 401 and no grouping without a logged-in user; otherwise 200 and the grouping of that user's bookmarks |
| BookmarkedByDay.GroupsAreNonEmpty | src/app/api/posts/bookmarked-by-day/route.ts:32-35 | no group is empty |
| BookmarkedByDay.GroupSizeSumSnoc | src/app/api/posts/bookmarked-by-day/route.ts:35 | one more bookmark adds one to the size sum for each listing of its key |
| BookmarkedByDay.GroupSizesAddUpOverCover | src/app/api/posts/bookmarked-by-day/route.ts:30-36 | over distinct keys covering every present key, the group sizes add up to the number of bookmarks |
| BookmarkedByDay.GroupSizesAddUp | src/app/api/posts/bookmarked-by-day/route.ts:30-36 | every post lands in exactly one group: over the dictionary's keys, each listed once, the group sizes add up to the number of bookmarks |
| BookmarkedByDay.GroupAsWritten | src/app/api/posts/bookmarked-by-day/route.ts:28-36 | the loop over a plain object: a dictionary it builds never holds an inherited property name as a key, and a last bookmark whose day names one makes it throw |
| BookmarkedByDay.GroupAsWrittenFailsIffInheritedDay | src/app/api/posts/bookmarked-by-day/route.ts:28-36 | the loop as written throws exactly when some bookmark's day names an inherited property |
| BookmarkedByDay.InheritedDayBreaksGrouping | src/app/api/posts/bookmarked-by-day/route.ts:28-35 | with `grouped = {}` as written, one bookmark whose day is "constructor" makes the loop throw |
| BookmarkedByDay.GroupAsWrittenIsFold | src/app/api/posts/bookmarked-by-day/route.ts:28-36 | when no day names an inherited property, the loop as written takes the same steps as `GroupFold` |
| BookmarkedByDay.GroupAsWrittenWithoutInheritedDays | src/app/api/posts/bookmarked-by-day/route.ts:28-36 | when no day names an inherited property, the loop as written builds the intended dictionary |
| BookmarkButton.DaysAreSevenDistinctDays | src/components/posts/BookmarkButton.tsx:23 | seven distinct days, MONDAY first and SUNDAY last |
| BookmarkButton.Optimistic | src/components/posts/BookmarkButton.tsx:54-142 | create writes (true, chosen day) whatever was there. Update writes the new day and keeps the bookmark flag, or gives true when there was no entry. Remove writes (false, "") |
| BookmarkButton.Rollback | src/components/posts/BookmarkButton.tsx:68-72 | a snapshot, when there is one, is written back; otherwise the entry is left as is |
| BookmarkButton.AfterMutation | src/components/posts/BookmarkButton.tsx:54-72 | a failed request with a snapshot restores the entry as it was before; otherwise the optimistic value stays |
| BookmarkButton.DayClick | src/components/posts/BookmarkButton.tsx:188-195 | create when not bookmarked, update when bookmarked, with the clicked day |
| BookmarkButton.Label | src/components/posts/BookmarkButton.tsx:168-170 | "Mealplan: " + day when bookmarked, "?" only when the day is missing (an empty day stays empty); "Add to Mealplan" otherwise |
| BookmarkButton.DayItems | src/components/posts/BookmarkButton.tsx:185-199 | one day item per day, in order |
| BookmarkButton.MenuItems | src/components/posts/BookmarkButton.tsx:182-211 | the seven days in order, then the remove action; the remove action is offered iff the post is bookmarked |
| BookmarkButton.Render | src/components/posts/BookmarkButton.tsx:162-170 | nothing is rendered iff there is no data; otherwise the label and the menu |
| BookmarkButton.SuccessfulDayClickShowsDay | src/components/posts/BookmarkButton.tsx:186-195 | the optimistic entry after a successful day click is the post bookmarked on that day, labelled "Mealplan: " + day, whatever the state before; it holds until the `onSettled` refetch replaces the entry |
| BookmarkButton.FailedMutationIsUndone | src/components/posts/BookmarkButton.tsx:54-72 | a failed mutation leaves a populated entry exactly as it was |
| BookmarkButton.RemoveOffersAddAgain | src/components/posts/BookmarkButton.tsx:132-211 | after an optimistic remove, the label is "Add to Mealplan" and no remove action is offered |
| BookmarkButton.Refetched | src/components/posts/BookmarkButton.tsx:38-45 | the refetch (the GET handler of the bookmark route) of an existing bookmark gives bookmarked, with the stored day, or no day when it is empty |
| BookmarkButton.SettledAfterCreateAsWritten | src/components/posts/BookmarkButton.tsx:47-86 | as written, the entry refetched after a successful create is bookmarked on MONDAY whatever day was chosen |
| BookmarkButton.CreateSettlesOnMonday | src/components/posts/BookmarkButton.tsx:48-86 | creating on FRIDAY shows "Mealplan: FRIDAY" optimistically and "Mealplan: MONDAY" after the refetch |
| BookmarkButton.SettledAfterCreate | src/components/posts/BookmarkButton.tsx:48-86 | with a create handler that stores the chosen day, the refetched entry is bookmarked on that day |
| BookmarkButton.SettledCreateConfirmsOptimistic | src/components/posts/BookmarkButton.tsx:54-85 | with that handler, the refetch after creating on any menu day equals the optimistic entry |
| BookmarkButton.BookmarkCache.constructor | src/components/posts/BookmarkButton.tsx:38-45 | the entry starts as the initial state |
| BookmarkButton.BookmarkCache.OnMutate | src/components/posts/BookmarkButton.tsx:54-67 | returns the old entry as the snapshot and writes the optimistic value |
| BookmarkButton.BookmarkCache.OnError | src/components/posts/BookmarkButton.tsx:68-72 | the entry becomes `Rollback` of the current entry and the snapshot |
| BookmarkButton.BookmarkCache.Mutate | src/components/posts/BookmarkButton.tsx:48-86 | the entry becomes `AfterMutation` of the old entry |
| BookmarkButton.BookmarkCache.ClickDay | src/components/posts/BookmarkButton.tsx:186-195 | on success the entry is (true, clicked day); on failure it is unchanged |
| BookmarkButton.BookmarkCache.ClickRemove | src/components/posts/BookmarkButton.tsx:200-211 | offered only when bookmarked; on success the entry is (false, ""); on failure it is unchanged |

## Left out

- Persistence, HTTP, cookie attributes and middleware are not modelled. The session table is an in-memory map. A cookie write is a `CookieAction` value. The `try/catch` around the cookie writes in `validateRequest` is not modelled.
- Auth.SessionStore: the token hash (SHA-256, then lower-case hex) is a function the store is constructed with. `generateSessionToken` draws random bytes, so it is left out. The clock is the `now` parameter, in milliseconds.
- Auth.ValidationResult: the user record that `findUnique` joins is represented by the session's `userId`.
- Auth.SessionStore.CreateSession: a unique-constraint error is returned as `None` instead of an exception.
- Auth.SessionStore.InvalidateSession: deleting a missing row throws in the source; the model returns `false` instead.
- Text.Lower: lower-cases ASCII letters only, because `toLowerCase`'s full Unicode case mapping is not modelled. Strings are sequences of code points, not UTF-16 code units.
- EcmaParseInt.ParseInt: results are exact integers. The rounding of JavaScript numbers above 2^53 is not modelled, and −0 is folded into 0. Both `|| 0` and the later arithmetic treat the two zeros alike.
- CaloriesChart.ContributionInGrams: uses exact real arithmetic, not IEEE-754 doubles. The `Math.round` of the calorie total in the chart's centre label is display only.
- CaloriesChart: the nutrition dataset (`foods.json`) is not part of this model and is a parameter. Diet classification, micronutrient tables and per-100 g normalisation are not part of this model.
- BookmarkButton.BookmarkCache: covers the single cache entry only. Query cancellation, interleaved mutations and the refetch in `onSettled` (modelled only for a successful create, by `SettledAfterCreateAsWritten`), the HTTP requests and the toasts are not modelled. Whether a request fails is a parameter.
- BookmarkButton.MenuItems: lists the menu's actions, not its heading, separators or styling.
- FoodSearchBar.SearchBar: `onChange` is modelled as the value each handler returns. The rendering of the list, including "No food found", is not modelled.

## Findings

| source | as written | input that shows it | evidently intended | confidence | as-written member | corrected member |
|---|---|---|---|---|---|---|
| src/app/api/posts/bookmarked-by-day/route.ts:28-35 | `grouped` is an object literal `{}`, so `grouped[day]` also finds properties inherited from `Object.prototype`. For such a day, `!grouped[day]` is false, and `.push` is called on a function, which throws a TypeError. | one bookmark whose day is "constructor" (the PATCH handler of the bookmark route stores whatever day string the request carries) | each day's posts grouped under that day, for every day string | low: not executed, and depends on the database schema, which is not part of this model, accepting free-text days | BookmarkedByDay.InheritedDayBreaksGrouping | BookmarkedByDay.GroupByDay |
| src/components/posts/BookmarkButton.tsx:47-86 | the create mutation sends the chosen day, but the POST handler of the bookmark route (`src/app/api/posts/[postId]/bookmark/route.ts`, lines 24-41) never reads the request body and stores the day "MONDAY", so after the `onSettled` refetch (`BookmarkButton.tsx`, lines 81-85) a bookmark created on another day shows MONDAY | clicking FRIDAY on a post that is not bookmarked: "Mealplan: FRIDAY" at first, then "Mealplan: MONDAY" | the chosen day is stored, so the refetch confirms the optimistic entry | medium: not executed; the optimistic write and the PATCH handler both use the chosen day | BookmarkButton.CreateSettlesOnMonday | BookmarkButton.SettledCreateConfirmsOptimistic |
