/**
 * `components/schedule-client.tsx`: the schedule page filters the releases by
 * the selected weekday and the search box, then groups what is left by weekday,
 * Monday first and Sunday last. `lower` is JavaScript's `toLowerCase` on one
 * character.
 */
module Schedule {
  import opened Wrappers
  import Js
  import Rows
  import Store

  /** A tab of the day bar: `day` is JavaScript's `getDay()` number, `None` for "all". */
  datatype Weekday = Weekday(day: Option<int>, name: string)

  /** A section of the "all days" view. */
  datatype DayGroup = DayGroup(day: int, name: string, releases: seq<Store.Release>)

  const AllDays: Weekday := Weekday(None, "Все")

  /** The seven days, Monday (1) to Sunday (0). */
  const Days: seq<Weekday> := [
    Weekday(Some(1), "Понедельник"), Weekday(Some(2), "Вторник"), Weekday(Some(3), "Среда"),
    Weekday(Some(4), "Четверг"), Weekday(Some(5), "Пятница"), Weekday(Some(6), "Суббота"),
    Weekday(Some(0), "Воскресенье")]

  /** The tabs in display order. */
  const Weekdays: seq<Weekday> := [AllDays] + Days

  /** `s.toLowerCase().includes(q.toLowerCase())`. */
  predicate ContainsFolded(s: string, q: string, lower: char -> char) {
    Js.Includes(Js.MapChars(s, lower), Js.MapChars(q, lower))
  }

  /** The test of `filteredReleases` for one release. */
  predicate Keep(r: Store.Release, selectedDay: Option<int>, query: string, lower: char -> char) {
    (selectedDay.None? || r.releaseDay == selectedDay)
    && (query == "" || ContainsFolded(r.titleRu, query, lower) || ContainsFolded(r.title, query, lower))
  }

  function KeepWith(selectedDay: Option<int>, query: string, lower: char -> char): Store.Release -> bool {
    (r: Store.Release) => Keep(r, selectedDay, query, lower)
  }

  /** `filteredReleases`. */
  function FilteredReleases(releases: seq<Store.Release>, selectedDay: Option<int>, query: string, lower: char -> char)
    : seq<Store.Release>
  {
    Rows.Filter(releases, KeepWith(selectedDay, query, lower))
  }

  /**
   * A release is shown iff no day is selected or it comes out on the selected
   * day, and the query is empty or occurs, ignoring case, in its Russian title
   * or its title; the order of the list is kept.
   */
  lemma FilteredReleasesSpec(releases: seq<Store.Release>, selectedDay: Option<int>, query: string,
                             lower: char -> char, before: (Store.Release, Store.Release) -> bool)
    requires Rows.Pairwise(releases, before)
    ensures forall r :: r in FilteredReleases(releases, selectedDay, query, lower) <==>
              r in releases && (selectedDay.None? || r.releaseDay == selectedDay)
              && (query == "" || ContainsFolded(r.titleRu, query, lower) || ContainsFolded(r.title, query, lower))
    ensures Rows.Pairwise(FilteredReleases(releases, selectedDay, query, lower), before)
  {
    Rows.FilterPairwise(releases, KeepWith(selectedDay, query, lower), before);
  }

  /** With no day selected and an empty search box every release is shown, in order. */
  lemma NoFilterShowsAll(releases: seq<Store.Release>, lower: char -> char)
    ensures FilteredReleases(releases, None, "", lower) == releases
  {
    Rows.FilterAll(releases, KeepWith(None, "", lower));
  }

  /** The empty-query test only saves work: the empty string occurs in every title. */
  lemma EmptyQueryMatchesEverything(r: Store.Release, selectedDay: Option<int>, lower: char -> char)
    ensures Keep(r, selectedDay, "", lower) <==> (selectedDay.None? || r.releaseDay == selectedDay)
    ensures ContainsFolded(r.titleRu, "", lower)
  {
    Js.IncludesEmpty(Js.MapChars(r.titleRu, lower));
    assert Js.MapChars("", lower) == "";
  }

  predicate HasDay(w: Weekday) { w.day.Some? }

  function OnDay(d: int): Store.Release -> bool {
    (r: Store.Release) => r.releaseDay == Some(d)
  }

  /** The `.map` of `releasesByDay`: a section per dated tab, holding that day's releases. */
  function Sections(days: seq<Weekday>, filtered: seq<Store.Release>): (groups: seq<DayGroup>)
    requires forall i :: 0 <= i < |days| ==> days[i].day.Some?
    ensures |groups| == |days|
    ensures forall i :: 0 <= i < |days| ==>
              groups[i] == DayGroup(days[i].day.value, days[i].name, Rows.Filter(filtered, OnDay(days[i].day.value)))
  {
    seq(|days|, i requires 0 <= i < |days| =>
      DayGroup(days[i].day.value, days[i].name, Rows.Filter(filtered, OnDay(days[i].day.value))))
  }

  /** `releasesByDay`: the sections of the weekday tabs other than "all". */
  function ReleasesByDay(filtered: seq<Store.Release>): seq<DayGroup> {
    var days := Rows.Filter(Weekdays, HasDay);
    assert forall i :: 0 <= i < |days| ==> days[i] in days;
    Sections(days, filtered)
  }

  /** Removing the "all" tab leaves the seven days in order. */
  lemma DayTabs()
    ensures Rows.Filter(Weekdays, HasDay) == Days
  {
    Rows.FilterAppend([AllDays], Days, HasDay);
    assert Rows.Filter([AllDays], HasDay) == [];
    Rows.FilterAll(Days, HasDay);
  }

  /** Day `i` of the tab bar (counting from Monday) is JavaScript's day `(i + 1) % 7`. */
  lemma DaysNumbered()
    ensures |Days| == 7 && forall i :: 0 <= i < 7 ==> Days[i].day == Some((i + 1) % 7)
  {
  }

  /**
   * There are seven sections, Monday to Saturday then Sunday, each named after
   * its tab and holding, in order, the shown releases of its day.
   */
  lemma ReleasesByDaySpec(filtered: seq<Store.Release>)
    ensures |ReleasesByDay(filtered)| == 7
    ensures forall i :: 0 <= i < 7 ==>
              ReleasesByDay(filtered)[i] == DayGroup((i + 1) % 7, Days[i].name, Rows.Filter(filtered, OnDay((i + 1) % 7)))
  {
    SectionsCount(filtered);
    forall i | 0 <= i < 7
      ensures ReleasesByDay(filtered)[i] == DayGroup((i + 1) % 7, Days[i].name, Rows.Filter(filtered, OnDay((i + 1) % 7)))
    {
      SectionOfDay(filtered, i);
    }
  }

  lemma SectionsCount(filtered: seq<Store.Release>)
    ensures |ReleasesByDay(filtered)| == 7
  {
    DayTabs();
  }

  lemma SectionOfDay(filtered: seq<Store.Release>, i: int)
    requires 0 <= i < 7
    ensures |ReleasesByDay(filtered)| == 7
    ensures ReleasesByDay(filtered)[i] == DayGroup((i + 1) % 7, Days[i].name, Rows.Filter(filtered, OnDay((i + 1) % 7)))
  {
    DayTabs();
    DaysNumbered();
  }

  /** Section `i` holds exactly the shown releases of its day. */
  lemma GroupMembers(filtered: seq<Store.Release>, i: int, r: Store.Release)
    requires 0 <= i < 7
    ensures |ReleasesByDay(filtered)| == 7
    ensures r in ReleasesByDay(filtered)[i].releases <==> r in filtered && r.releaseDay == Some((i + 1) % 7)
  {
    SectionOfDay(filtered, i);
  }

  /** A release without a weekday is listed in no section. */
  lemma UndatedInNoGroup(filtered: seq<Store.Release>, r: Store.Release)
    requires r.releaseDay.None?
    ensures forall g :: g in ReleasesByDay(filtered) ==> r !in g.releases
  {
    ReleasesByDaySpec(filtered);
  }

  /** A shown release coming out on day `d` of the week is in the one section of `d` and no other. */
  lemma DatedInOneGroup(filtered: seq<Store.Release>, r: Store.Release, d: int)
    requires r in filtered && r.releaseDay == Some(d) && 0 <= d < 7
    ensures |ReleasesByDay(filtered)| == 7
    ensures forall i :: 0 <= i < 7 ==> (r in ReleasesByDay(filtered)[i].releases <==> i == (d + 6) % 7)
  {
    SectionsCount(filtered);
    forall i | 0 <= i < 7
      ensures r in ReleasesByDay(filtered)[i].releases <==> i == (d + 6) % 7
    {
      GroupMembers(filtered, i, r);
      DayIndex(i, d);
    }
  }

  /** Tab `i` shows day `d` exactly when `i` is `d` counted from Monday. */
  lemma DayIndex(i: int, d: int)
    requires 0 <= i < 7 && 0 <= d < 7
    ensures (i + 1) % 7 == d <==> i == (d + 6) % 7
  {
    if i == 6 {
      assert (i + 1) % 7 == 0;
    } else {
      assert (i + 1) % 7 == i + 1;
    }
    if d == 0 {
      assert (d + 6) % 7 == 6;
    } else {
      assert (d + 6) % 7 == d - 1;
    }
  }

  /** The count label of a section: `релиз` for exactly one release, `релизов` otherwise. */
  function CountLabel(n: nat): (word: string)
    ensures word == "релиз" <==> n == 1
    ensures word == "релиз" || word == "релизов"
  {
    if n == 1 then "релиз" else "релизов"
  }
}
