/** The meal-plan bookmark button of a post: one cached entry
    `{isBookmarkedByUser, day}` per post, written optimistically before each
    create, update or remove request and rolled back when the request fails. */
module BookmarkButton {
  import opened Common

  /** The days offered in the drop-down menu, in menu order. */
  const Days: seq<string> :=
    ["MONDAY", "TUESDAY", "WEDNESDAY", "THURSDAY", "FRIDAY", "SATURDAY", "SUNDAY"]

  lemma DaysAreSevenDistinctDays()
    ensures |Days| == 7
    ensures Days[0] == "MONDAY" && Days[6] == "SUNDAY"
    ensures forall i, j :: 0 <= i < j < |Days| ==> Days[i] != Days[j]
  {
  }

  /** The cached bookmark state; `day` is nullable. */
  datatype BookmarkInfo = BookmarkInfo(isBookmarkedByUser: bool, day: Option<string>)

  /** The three mutations with their arguments. */
  datatype Mutation = CreateBookmark(chosenDay: string) | UpdateDay(newDay: string) | RemoveBookmark

  /** The value each mutation writes into the cache before its request is
      sent; `prior` is the cached value, absent when there is none. */
  function Optimistic(m: Mutation, prior: Option<BookmarkInfo>): (r: BookmarkInfo)
    ensures m.CreateBookmark? ==> r == BookmarkInfo(true, Some(m.chosenDay))
    ensures m.UpdateDay? ==> r.day == Some(m.newDay)
    ensures m.UpdateDay? && prior.None? ==> r.isBookmarkedByUser
    ensures m.UpdateDay? && prior.Some? ==> r.isBookmarkedByUser == prior.value.isBookmarkedByUser
    ensures m.RemoveBookmark? ==> r == BookmarkInfo(false, Some(""))
  {
    match m
    case CreateBookmark(chosenDay) => BookmarkInfo(true, Some(chosenDay))
    case UpdateDay(newDay) =>
      if prior.None? then BookmarkInfo(true, Some(newDay)) else prior.value.(day := Some(newDay))
    case RemoveBookmark => BookmarkInfo(false, Some(""))
  }

  /** `onError`: the snapshot is written back when there is one (a
      snapshot is an object, hence truthy); otherwise the cache is left as is. */
  function Rollback(current: Option<BookmarkInfo>, snapshot: Option<BookmarkInfo>): (r: Option<BookmarkInfo>)
    ensures snapshot.Some? ==> r == snapshot
    ensures snapshot.None? ==> r == current
  {
    if snapshot.Some? then snapshot else current
  }

  /** The cache after one mutation has been written optimistically and its
      request has either succeeded or failed (before any refetch). */
  function AfterMutation(m: Mutation, before: Option<BookmarkInfo>, requestFails: bool): (r: Option<BookmarkInfo>)
    ensures requestFails && before.Some? ==> r == before
    ensures !(requestFails && before.Some?) ==> r == Some(Optimistic(m, before))
  {
    var optimistic := Some(Optimistic(m, before));
    if requestFails then Rollback(optimistic, before) else optimistic
  }

  /** Clicking a day creates a bookmark when there is none and moves the
      existing one otherwise. */
  function DayClick(info: BookmarkInfo, d: string): (m: Mutation)
    ensures !info.isBookmarkedByUser ==> m == CreateBookmark(d)
    ensures info.isBookmarkedByUser ==> m == UpdateDay(d)
  {
    if !info.isBookmarkedByUser then CreateBookmark(d) else UpdateDay(d)
  }

  /** The button's label; `??` replaces only a missing day, so an empty day
      gives "Mealplan: ". */
  function Label(info: BookmarkInfo): (s: string)
    ensures info.isBookmarkedByUser && info.day.Some? ==> s == "Mealplan: " + info.day.value
    ensures info.isBookmarkedByUser && info.day.None? ==> s == "Mealplan: ?"
    ensures !info.isBookmarkedByUser ==> s == "Add to Mealplan"
  {
    if info.isBookmarkedByUser then
      "Mealplan: " + (if info.day.Some? then info.day.value else "?")
    else
      "Add to Mealplan"
  }

  datatype MenuItem = PickDay(day: string) | RemoveFromMealplan

  /** The menu: one item per day, in order, then the remove action when the
      post is bookmarked. */
  function MenuItems(info: BookmarkInfo): (items: seq<MenuItem>)
    ensures |items| == |Days| + (if info.isBookmarkedByUser then 1 else 0)
    ensures forall i :: 0 <= i < |Days| ==> items[i] == PickDay(Days[i])
    ensures RemoveFromMealplan in items <==> info.isBookmarkedByUser
  {
    DayItems(Days) + (if info.isBookmarkedByUser then [RemoveFromMealplan] else [])
  }

  function DayItems(days: seq<string>): (items: seq<MenuItem>)
    ensures |items| == |days|
    ensures forall i :: 0 <= i < |days| ==> items[i] == PickDay(days[i])
  {
    if days == [] then [] else [PickDay(days[0])] + DayItems(days[1..])
  }

  /** What is rendered: nothing while there is no data, else the label and
      the menu. */
  function Render(data: Option<BookmarkInfo>): (r: Option<(string, seq<MenuItem>)>)
    ensures data.None? <==> r.None?
    ensures data.Some? ==> r == Some((Label(data.value), MenuItems(data.value)))
  {
    if data.None? then None else Some((Label(data.value), MenuItems(data.value)))
  }

  /** The optimistic entry of a day click that succeeds shows the post
      bookmarked on that day, whatever the state before, until the
      `onSettled` refetch replaces it with the server's answer. */
  lemma SuccessfulDayClickShowsDay(info: BookmarkInfo, d: string)
    ensures AfterMutation(DayClick(info, d), Some(info), false) == Some(BookmarkInfo(true, Some(d)))
    ensures Label(BookmarkInfo(true, Some(d))) == "Mealplan: " + d
  {
    if info.isBookmarkedByUser {
      assert Optimistic(UpdateDay(d), Some(info)) == info.(day := Some(d));
    }
  }

  /** A failed mutation leaves a populated cache exactly as it was. */
  lemma FailedMutationIsUndone(m: Mutation, info: BookmarkInfo)
    ensures AfterMutation(m, Some(info), true) == Some(info)
  {
  }

  /** After an optimistic remove the button offers "Add to Mealplan" and no
      remove action. */
  lemma RemoveOffersAddAgain(prior: Option<BookmarkInfo>)
    ensures Label(Optimistic(RemoveBookmark, prior)) == "Add to Mealplan"
    ensures RemoveFromMealplan !in MenuItems(Optimistic(RemoveBookmark, prior))
  {
  }

  // ---- The entry after the `onSettled` refetch of a created bookmark ----

  /** The server's answer to the refetch (the GET handler of the bookmark
      route) once a bookmark with day `storedDay` exists: bookmarked, and a
      day only when it is non-empty. */
  function Refetched(storedDay: string): (r: BookmarkInfo)
    ensures r.isBookmarkedByUser
    ensures storedDay == "" <==> r.day.None?
    ensures storedDay != "" ==> r.day == Some(storedDay)
  {
    BookmarkInfo(true, if storedDay == "" then None else Some(storedDay))
  }

  /** As written, the POST handler of the bookmark route ignores the
      request body and stores the day "MONDAY"; this is the entry after the
      refetch that follows a successful create. */
  function SettledAfterCreateAsWritten(chosenDay: string): (r: BookmarkInfo)
    ensures r == BookmarkInfo(true, Some("MONDAY"))
  {
    Refetched("MONDAY")
  }

  /** Creating on FRIDAY shows "Mealplan: FRIDAY" optimistically, but
      "Mealplan: MONDAY" once the entry is refetched. */
  lemma CreateSettlesOnMonday(prior: Option<BookmarkInfo>)
    ensures Label(Optimistic(CreateBookmark("FRIDAY"), prior)) == "Mealplan: FRIDAY"
    ensures Label(SettledAfterCreateAsWritten("FRIDAY")) == "Mealplan: MONDAY"
    ensures SettledAfterCreateAsWritten("FRIDAY") != Optimistic(CreateBookmark("FRIDAY"), prior)
  {
  }

  /** The evidently intended POST handler stores the chosen day, so the
      refetched entry is the chosen day too. */
  function SettledAfterCreate(chosenDay: string): (r: BookmarkInfo)
    ensures chosenDay != "" ==> r == BookmarkInfo(true, Some(chosenDay))
  {
    Refetched(chosenDay)
  }

  /** With the intended handler, the refetch after creating on any day of
      the menu confirms the optimistic entry. */
  lemma SettledCreateConfirmsOptimistic(d: string, prior: Option<BookmarkInfo>)
    requires d in Days
    ensures SettledAfterCreate(d) == Optimistic(CreateBookmark(d), prior)
  {
    var i :| 0 <= i < |Days| && Days[i] == d;
    assert d != "";
  }

  /** The cached entry for one post. */
  class BookmarkCache {
    var data: Option<BookmarkInfo>

    /** The query starts from the server-rendered initial state. */
    constructor (initialState: BookmarkInfo)
      ensures data == Some(initialState)
    {
      data := Some(initialState);
    }

    /** `onMutate`: snapshot the entry, then write the optimistic value. */
    method OnMutate(m: Mutation) returns (snapshot: Option<BookmarkInfo>)
      modifies this
      ensures snapshot == old(data)
      ensures data == Some(Optimistic(m, old(data)))
    {
      snapshot := data;
      data := Some(Optimistic(m, data));
    }

    /** `onError`: restore the snapshot when there is one. */
    method OnError(snapshot: Option<BookmarkInfo>)
      modifies this
      ensures data == Rollback(old(data), snapshot)
    {
      if snapshot.Some? {
        data := snapshot;
      }
    }

    /** One mutation: optimistic write, then the request's outcome. */
    method Mutate(m: Mutation, requestFails: bool)
      modifies this
      ensures data == AfterMutation(m, old(data), requestFails)
    {
      var snapshot := OnMutate(m);
      if requestFails {
        OnError(snapshot);
      }
    }

    /** A click on a day in the rendered menu. */
    method ClickDay(d: string, requestFails: bool)
      requires data.Some?
      modifies this
      ensures data == AfterMutation(DayClick(old(data).value, d), old(data), requestFails)
      ensures !requestFails ==> data == Some(BookmarkInfo(true, Some(d)))
      ensures requestFails ==> data == old(data)
    {
      var m := DayClick(data.value, d);
      SuccessfulDayClickShowsDay(data.value, d);
      Mutate(m, requestFails);
    }

    /** A click on "Remove from Mealplan", offered only when bookmarked. */
    method ClickRemove(requestFails: bool)
      requires data.Some? && RemoveFromMealplan in MenuItems(data.value)
      modifies this
      ensures old(data).value.isBookmarkedByUser
      ensures !requestFails ==> data == Some(BookmarkInfo(false, Some("")))
      ensures requestFails ==> data == old(data)
    {
      Mutate(RemoveBookmark, requestFails);
    }
  }
}
