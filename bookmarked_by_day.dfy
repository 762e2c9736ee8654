/** GET /api/posts/bookmarked-by-day: the logged-in user's bookmarked posts,
    grouped into a dictionary from meal-plan day to posts. A bookmark
    without a day (null or "") goes to the group "NO_DAY". */
module BookmarkedByDay {
  import opened Common

  const NoDay: string := "NO_DAY"

  /** A bookmark row with its post; `day` is nullable. */
  datatype Bookmark<Post> = Bookmark(day: Option<string>, post: Post)

  datatype Response<Post> = Unauthorized | Grouped(grouped: map<string, seq<Post>>)

  function Status<P>(r: Response<P>): int
  {
    if r.Unauthorized? then 401 else 200
  }

  /** `bm.day || "NO_DAY"`. */
  function DayKey<P>(bm: Bookmark<P>): (key: string)
    ensures bm.day.None? || bm.day.value == "" ==> key == NoDay
    ensures bm.day.Some? && bm.day.value != "" ==> key == bm.day.value
  {
    if bm.day.Some? && bm.day.value != "" then bm.day.value else NoDay
  }

  /** The posts of a list of bookmarks, in order. */
  function Posts<P>(bookmarks: seq<Bookmark<P>>): (posts: seq<P>)
    ensures |posts| == |bookmarks|
    ensures forall i :: 0 <= i < |bookmarks| ==> posts[i] == bookmarks[i].post
  {
    if bookmarks == [] then [] else [bookmarks[0].post] + Posts(bookmarks[1..])
  }

  lemma {:induction false} PostsAppend<P>(a: seq<Bookmark<P>>, b: seq<Bookmark<P>>)
    ensures Posts(a + b) == Posts(a) + Posts(b)
  {
  }

  /** The bookmarks whose key is `key`, in their original order. */
  function BookmarksOfDay<P(==, !new)>(bookmarks: seq<Bookmark<P>>, key: string): (r: seq<Bookmark<P>>)
    ensures IsSubsequence(r, bookmarks)
    ensures forall bm :: bm in r <==> bm in bookmarks && DayKey(bm) == key
  {
    Filter(bookmarks, (bm: Bookmark<P>) => DayKey(bm) == key)
  }

  /** The group of `key`: the posts of its bookmarks, in bookmark order. */
  function PostsOfDay<P(==, !new)>(bookmarks: seq<Bookmark<P>>, key: string): seq<P>
  {
    Posts(BookmarksOfDay(bookmarks, key))
  }

  /** The keys that occur in the input. */
  ghost function DayKeys<P>(bookmarks: seq<Bookmark<P>>): set<string>
  {
    if bookmarks == [] then {}
    else DayKeys(bookmarks[..|bookmarks| - 1]) + {DayKey(bookmarks[|bookmarks| - 1])}
  }

  /** A key is in `DayKeys` exactly when some bookmark has it. */
  lemma {:induction false} DayKeysMeaning<P>(bookmarks: seq<Bookmark<P>>, key: string)
    ensures key in DayKeys(bookmarks) <==> exists i :: 0 <= i < |bookmarks| && DayKey(bookmarks[i]) == key
  {
    if bookmarks != [] {
      var n := |bookmarks| - 1;
      DayKeysMeaning(bookmarks[..n], key);
      if key in DayKeys(bookmarks[..n]) {
        var i :| 0 <= i < n && DayKey(bookmarks[..n][i]) == key;
        assert bookmarks[i] == bookmarks[..n][i];
      }
      forall i | 0 <= i < n && DayKey(bookmarks[i]) == key ensures key in DayKeys(bookmarks[..n]) {
        assert bookmarks[..n][i] == bookmarks[i];
      }
    }
  }

  /** The dictionary the route is meant to build. */
  ghost function Grouping<P(!new)>(bookmarks: seq<Bookmark<P>>): map<string, seq<P>>
  {
    map key | key in DayKeys(bookmarks) :: PostsOfDay(bookmarks, key)
  }

  lemma DayKeysSnoc<P>(bookmarks: seq<Bookmark<P>>, bm: Bookmark<P>)
    ensures DayKeys(bookmarks + [bm]) == DayKeys(bookmarks) + {DayKey(bm)}
  {
    assert (bookmarks + [bm])[..|bookmarks|] == bookmarks;
  }

  /** Appending one bookmark appends its post to its own group only. */
  lemma PostsOfDaySnoc<P(!new)>(bookmarks: seq<Bookmark<P>>, bm: Bookmark<P>, key: string)
    ensures PostsOfDay(bookmarks + [bm], key) ==
      PostsOfDay(bookmarks, key) + (if DayKey(bm) == key then [bm.post] else [])
  {
    var keep := (b: Bookmark<P>) => DayKey(b) == key;
    FilterAppend(bookmarks, [bm], keep);
    PostsAppend(BookmarksOfDay(bookmarks, key), Filter([bm], keep));
    assert [bm][1..] == [];
  }

  /** A key that does not occur has no posts. */
  lemma PostsOfAbsentDay<P(!new)>(bookmarks: seq<Bookmark<P>>, key: string)
    requires key !in DayKeys(bookmarks)
    ensures PostsOfDay(bookmarks, key) == []
  {
    forall i | 0 <= i < |bookmarks| ensures DayKey(bookmarks[i]) != key {
      DayKeysMeaning(bookmarks, key);
    }
    FilterDropsAll(bookmarks, (b: Bookmark<P>) => DayKey(b) == key);
  }

  /** One step of the grouping loop: `key`'s group, created empty when
      missing, gets `post` appended. */
  function AddToGroup<P>(grouped: map<string, seq<P>>, key: string, post: P): (r: map<string, seq<P>>)
    ensures r.Keys == grouped.Keys + {key}
    ensures key in grouped ==> r[key] == grouped[key] + [post]
    ensures key !in grouped ==> r[key] == [post]
    ensures forall k :: k in grouped && k != key ==> r[k] == grouped[k]
  {
    grouped[key := (if key in grouped then grouped[key] else []) + [post]]
  }

  /** The loop's steps taken over a prefix of the bookmarks. */
  function GroupFold<P>(bookmarks: seq<Bookmark<P>>): map<string, seq<P>>
  {
    if bookmarks == [] then map[]
    else
      var bm := bookmarks[|bookmarks| - 1];
      AddToGroup(GroupFold(bookmarks[..|bookmarks| - 1]), DayKey(bm), bm.post)
  }

  /** The loop computes the intended dictionary. */
  lemma {:induction false} GroupFoldIsGrouping<P(!new)>(bookmarks: seq<Bookmark<P>>)
    ensures GroupFold(bookmarks) == Grouping(bookmarks)
    decreases |bookmarks|
  {
    if bookmarks != [] {
      var n := |bookmarks| - 1;
      var front, bm := bookmarks[..n], bookmarks[n];
      assert bookmarks == front + [bm];
      GroupFoldIsGrouping(front);
      GroupingSnoc(front, bm);
    }
  }

  /** The grouping loop of the route. */
  method GroupByDay<P(==, !new)>(bookmarks: seq<Bookmark<P>>) returns (grouped: map<string, seq<P>>)
    ensures grouped == Grouping(bookmarks)
  {
    grouped := map[];
    for i := 0 to |bookmarks|
      invariant grouped == GroupFold(bookmarks[..i])
    {
      var bm := bookmarks[i];
      var day := DayKey(bm);
      ghost var before := grouped;
      if day !in grouped {
        grouped := grouped[day := []];
      }
      grouped := grouped[day := grouped[day] + [bm.post]];
      assert grouped == AddToGroup(before, day, bm.post);
      assert bookmarks[..i + 1][..i] == bookmarks[..i];
    }
    assert bookmarks[..|bookmarks|] == bookmarks;
    GroupFoldIsGrouping(bookmarks);
  }

  /** One loop step: the new bookmark's post is appended to its group,
      which is created empty first when it is missing. */
  lemma GroupingSnoc<P(!new)>(bookmarks: seq<Bookmark<P>>, bm: Bookmark<P>)
    ensures var g, day := Grouping(bookmarks), DayKey(bm);
      Grouping(bookmarks + [bm]) == g[day := (if day in g then g[day] else []) + [bm.post]]
  {
    var g, day := Grouping(bookmarks), DayKey(bm);
    var g' := Grouping(bookmarks + [bm]);
    var h := g[day := (if day in g then g[day] else []) + [bm.post]];
    DayKeysSnoc(bookmarks, bm);
    assert g'.Keys == h.Keys;
    forall key | key in g' ensures g'[key] == h[key] {
      GroupingSnocAt(bookmarks, bm, key);
    }
  }

  lemma GroupingSnocAt<P(!new)>(bookmarks: seq<Bookmark<P>>, bm: Bookmark<P>, key: string)
    requires key in DayKeys(bookmarks + [bm])
    ensures var g, day := Grouping(bookmarks), DayKey(bm);
      Grouping(bookmarks + [bm])[key] == g[day := (if day in g then g[day] else []) + [bm.post]][key]
  {
    var g, day := Grouping(bookmarks), DayKey(bm);
    DayKeysSnoc(bookmarks, bm);
    PostsOfDaySnoc(bookmarks, bm, key);
    if key == day && day !in g {
      PostsOfAbsentDay(bookmarks, day);
    }
  }

  /** The route: 401 without a logged-in user; otherwise the grouping of
      that user's bookmarks (`bookmarksOf` stands for the database query). */
  method Get<P(==, !new)>(loggedInUser: Option<string>, bookmarksOf: string -> seq<Bookmark<P>>)
    returns (response: Response<P>)
    ensures loggedInUser.None? ==> response == Unauthorized && Status(response) == 401
    ensures loggedInUser.Some? ==>
      response == Grouped(Grouping(bookmarksOf(loggedInUser.value))) && Status(response) == 200
  {
    if loggedInUser.None? {
      return Unauthorized;
    }
    var bookmarks := bookmarksOf(loggedInUser.value);
    var grouped := GroupByDay(bookmarks);
    response := Grouped(grouped);
  }

  /** No group is empty. */
  lemma GroupsAreNonEmpty<P(!new)>(bookmarks: seq<Bookmark<P>>, key: string)
    requires key in Grouping(bookmarks)
    ensures |Grouping(bookmarks)[key]| > 0
  {
    DayKeysMeaning(bookmarks, key);
    var i :| 0 <= i < |bookmarks| && DayKey(bookmarks[i]) == key;
    assert bookmarks[i] in BookmarksOfDay(bookmarks, key);
  }

  /** The sum of the sizes of the groups named by `keys`. */
  function GroupSizeSum<P(==, !new)>(bookmarks: seq<Bookmark<P>>, keys: seq<string>): nat
  {
    if keys == [] then 0 else |PostsOfDay(bookmarks, keys[0])| + GroupSizeSum(bookmarks, keys[1..])
  }

  /** How often `key` occurs in `keys`. */
  function Occurrences(keys: seq<string>, key: string): nat
  {
    if keys == [] then 0 else (if keys[0] == key then 1 else 0) + Occurrences(keys[1..], key)
  }

  lemma {:induction false} GroupSizeSumSnoc<P(!new)>(bookmarks: seq<Bookmark<P>>, bm: Bookmark<P>, keys: seq<string>)
    ensures GroupSizeSum(bookmarks + [bm], keys) == GroupSizeSum(bookmarks, keys) + Occurrences(keys, DayKey(bm))
  {
    if keys != [] {
      PostsOfDaySnoc(bookmarks, bm, keys[0]);
      GroupSizeSumSnoc(bookmarks, bm, keys[1..]);
    }
  }

  lemma {:induction false} OccursOnce(keys: seq<string>, key: string)
    requires key in keys
    requires forall i, j :: 0 <= i < j < |keys| ==> keys[i] != keys[j]
    ensures Occurrences(keys, key) == 1
  {
    if keys[0] == key {
      NotOccurring(keys[1..], key);
    } else {
      OccursOnce(keys[1..], key);
    }
  }

  lemma {:induction false} NotOccurring(keys: seq<string>, key: string)
    requires key !in keys
    ensures Occurrences(keys, key) == 0
  {
    if keys != [] {
      NotOccurring(keys[1..], key);
    }
  }

  lemma {:induction false} EmptyGroupSizeSum<P(!new)>(keys: seq<string>)
    ensures GroupSizeSum<P>([], keys) == 0
  {
    if keys != [] {
      EmptyGroupSizeSum<P>(keys[1..]);
    }
  }

  /** Every bookmark's post lands in exactly one group: over any listing of
      the dictionary's keys without repetition, the group sizes add up to
      the number of bookmarks. */
  lemma {:induction false} GroupSizesAddUp<P(!new)>(bookmarks: seq<Bookmark<P>>, keys: seq<string>)
    requires forall i, j :: 0 <= i < j < |keys| ==> keys[i] != keys[j]
    requires forall key :: key in keys <==> key in Grouping(bookmarks)
    ensures GroupSizeSum(bookmarks, keys) == |bookmarks|
  {
    GroupSizesAddUpOverCover(bookmarks, keys);
  }

  lemma {:induction false} GroupSizesAddUpOverCover<P(!new)>(bookmarks: seq<Bookmark<P>>, keys: seq<string>)
    requires forall i, j :: 0 <= i < j < |keys| ==> keys[i] != keys[j]
    requires forall key :: key in DayKeys(bookmarks) ==> key in keys
    ensures GroupSizeSum(bookmarks, keys) == |bookmarks|
    decreases |bookmarks|
  {
    if bookmarks == [] {
      EmptyGroupSizeSum<P>(keys);
    } else {
      var n := |bookmarks| - 1;
      var front, bm := bookmarks[..n], bookmarks[n];
      assert bookmarks == front + [bm];
      DayKeysSnoc(front, bm);
      GroupSizesAddUpOverCover(front, keys);
      GroupSizeSumSnoc(front, bm, keys);
      OccursOnce(keys, DayKey(bm));
    }
  }

  // ---- The loop as written, over a plain JavaScript object ----

  /** The properties every object literal inherits from `Object.prototype`.
      Reading one of them from `{}` yields a function or an object, which is
      truthy and has no `push`. */
  const InheritedProperties: set<string> := {
    "constructor", "__proto__", "toString", "toLocaleString", "valueOf",
    "hasOwnProperty", "isPrototypeOf", "propertyIsEnumerable",
    "__defineGetter__", "__defineSetter__", "__lookupGetter__", "__lookupSetter__"
  }

  /** The grouping loop with `grouped = {}` read through JavaScript's
      property lookup: `None` when it throws a TypeError, which happens when
      a day names an inherited property (`!grouped[day]` is false, and the
      inherited value has no `push`). */
  function GroupAsWritten<P>(bookmarks: seq<Bookmark<P>>): (r: Option<map<string, seq<P>>>)
    ensures r.Some? ==> forall key :: key in r.value ==> key !in InheritedProperties
    ensures bookmarks != [] && DayKey(bookmarks[|bookmarks| - 1]) in InheritedProperties ==> r.None?
  {
    if bookmarks == [] then Some(map[])
    else
      match GroupAsWritten(bookmarks[..|bookmarks| - 1])
      case None => None
      case Some(grouped) =>
        var bm := bookmarks[|bookmarks| - 1];
        var day := DayKey(bm);
        if day in grouped then Some(grouped[day := grouped[day] + [bm.post]])
        else if day in InheritedProperties then None
        else Some(grouped[day := [bm.post]])
  }

  /** A single bookmark whose day is "constructor" makes the route throw. */
  lemma InheritedDayBreaksGrouping<P>(post: P)
    ensures GroupAsWritten([Bookmark(Some("constructor"), post)]) == None
  {
    assert [Bookmark(Some("constructor"), post)][..0] == [];
  }

  /** The loop as written throws exactly when some bookmark's day names an
      inherited property. */
  lemma {:induction false} GroupAsWrittenFailsIffInheritedDay<P>(bookmarks: seq<Bookmark<P>>)
    ensures GroupAsWritten(bookmarks).None? <==> HasInheritedDay(bookmarks)
    decreases |bookmarks|
  {
    if bookmarks != [] {
      GroupAsWrittenFailsIffInheritedDay(bookmarks[..|bookmarks| - 1]);
      HasInheritedDaySnoc(bookmarks);
    }
  }

  /** Some bookmark's day names an inherited property. */
  ghost predicate HasInheritedDay<P>(bookmarks: seq<Bookmark<P>>)
  {
    exists i :: 0 <= i < |bookmarks| && DayKey(bookmarks[i]) in InheritedProperties
  }

  lemma HasInheritedDaySnoc<P>(bookmarks: seq<Bookmark<P>>)
    requires bookmarks != []
    ensures var n := |bookmarks| - 1;
      HasInheritedDay(bookmarks) <==>
        HasInheritedDay(bookmarks[..n]) || DayKey(bookmarks[n]) in InheritedProperties
  {
    var n := |bookmarks| - 1;
    var front := bookmarks[..n];
    if HasInheritedDay(front) {
      var i :| 0 <= i < |front| && DayKey(front[i]) in InheritedProperties;
      assert bookmarks[i] == front[i];
    }
    if HasInheritedDay(bookmarks) {
      var i :| 0 <= i < |bookmarks| && DayKey(bookmarks[i]) in InheritedProperties;
      if i < n {
        assert front[i] == bookmarks[i];
      }
    }
  }

  /** When no day names an inherited property, the loop as written builds
      the intended dictionary. */
  lemma GroupAsWrittenWithoutInheritedDays<P(!new)>(bookmarks: seq<Bookmark<P>>)
    requires forall i :: 0 <= i < |bookmarks| ==> DayKey(bookmarks[i]) !in InheritedProperties
    ensures GroupAsWritten(bookmarks) == Some(Grouping(bookmarks))
  {
    GroupAsWrittenIsFold(bookmarks);
    GroupFoldIsGrouping(bookmarks);
  }

  lemma {:induction false} GroupAsWrittenIsFold<P>(bookmarks: seq<Bookmark<P>>)
    requires forall i :: 0 <= i < |bookmarks| ==> DayKey(bookmarks[i]) !in InheritedProperties
    ensures GroupAsWritten(bookmarks) == Some(GroupFold(bookmarks))
    decreases |bookmarks|
  {
    if bookmarks != [] {
      var n := |bookmarks| - 1;
      var front := bookmarks[..n];
      assert forall i :: 0 <= i < |front| ==> front[i] == bookmarks[i];
      GroupAsWrittenIsFold(front);
    }
  }
}
