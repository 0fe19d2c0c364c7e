/**
 * The item filter of generate_reports in inventory/views.py: an optional
 * case-insensitive name search and an optional inclusive range of creation
 * dates, each applied only when given. Dates are day numbers.
 */
module Reports {
  import opened Text
  import opened Models

  /**
   * The cleaned fields of a valid search form. `search` is a text field, so an
   * empty string counts as not given; a date, once given, always filters.
   */
  datatype ReportQuery = ReportQuery(search: Option<string>, startDay: Option<int>, endDay: Option<int>)

  /** The name holds the search text at some position, ignoring the case of letters. */
  ghost predicate NameMatches(name: string, search: string) {
    exists i :: OccursAt(Lower(name), Lower(search), i)
  }

  /** An item belongs to the report when it meets every criterion that was given. */
  ghost predicate Selected(item: InventoryItem, q: ReportQuery) {
    && (q.search.Some? && q.search.value != "" ==> NameMatches(item.name, q.search.value))
    && (q.startDay.Some? ==> q.startDay.value <= item.createdDay)
    && (q.endDay.Some? ==> item.createdDay <= q.endDay.value)
  }

  /** The scanning test `icontains` agrees with the positional definition. */
  lemma IContainsMeansNameMatches()
    ensures forall name, search :: IContains(name, search) <==> NameMatches(name, search)
  {
    forall name, search ensures IContains(name, search) <==> NameMatches(name, search) {
      ContainsIff(Lower(name), Lower(search));
    }
  }

  /**
   * generate_reports: all items when the form is not valid (`query` is None);
   * otherwise the name filter, then the start-date filter, then the end-date
   * filter, each only when its field was given.
   */
  function ReportItems(items: map<ItemId, InventoryItem>, query: Option<ReportQuery>): (r: map<ItemId, InventoryItem>)
    ensures query.None? ==> r == items
    ensures query.Some? ==> forall id :: id in r <==> id in items && Selected(items[id], query.value)
    ensures forall id :: id in r ==> id in items && r[id] == items[id]
  {
    if query.None? then items
    else
      var q := query.value;
      var bySearch :=
        if q.search.Some? && q.search.value != "" then
          map id | id in items && IContains(items[id].name, q.search.value) :: items[id]
        else items;
      var byStart :=
        if q.startDay.Some? then map id | id in bySearch && bySearch[id].createdDay >= q.startDay.value :: bySearch[id]
        else bySearch;
      var byEnd :=
        if q.endDay.Some? then map id | id in byStart && byStart[id].createdDay <= q.endDay.value :: byStart[id]
        else byStart;
      IContainsMeansNameMatches();
      byEnd
  }

  /** A valid form with no criterion, or only an empty search text, lists every item. */
  lemma NoCriteriaListsAll(items: map<ItemId, InventoryItem>, search: Option<string>)
    requires search.None? || search == Some("")
    ensures ReportItems(items, Some(ReportQuery(search, None, None))) == items
  {
    var r := ReportItems(items, Some(ReportQuery(search, None, None)));
    assert r.Keys == items.Keys;
  }

  /** A start date after the end date leaves the report empty. */
  lemma InvertedRangeIsEmpty(items: map<ItemId, InventoryItem>, search: Option<string>, startDay: int, endDay: int)
    requires endDay < startDay
    ensures ReportItems(items, Some(ReportQuery(search, Some(startDay), Some(endDay)))) == map[]
  {
    var r := ReportItems(items, Some(ReportQuery(search, Some(startDay), Some(endDay))));
    assert r.Keys == {};
  }

  /** Searching for a text or for its lower-cased form gives the same report. */
  lemma SearchIgnoresCase(items: map<ItemId, InventoryItem>, q: ReportQuery, s: string)
    ensures ReportItems(items, Some(q.(search := Some(s))))
         == ReportItems(items, Some(q.(search := Some(Lower(s)))))
  {
    LowerIdempotent(s);
    var a := ReportItems(items, Some(q.(search := Some(s))));
    var b := ReportItems(items, Some(q.(search := Some(Lower(s)))));
    assert s == "" <==> Lower(s) == "";
    forall id | id in items
      ensures NameMatches(items[id].name, s) <==> NameMatches(items[id].name, Lower(s))
    {
    }
    assert a.Keys == b.Keys;
  }

  /** Adding a start date to a query without one can only remove items from the report. */
  lemma StartDateNarrows(items: map<ItemId, InventoryItem>, q: ReportQuery, startDay: int)
    requires q.startDay.None?
    ensures ReportItems(items, Some(q.(startDay := Some(startDay)))).Keys <= ReportItems(items, Some(q)).Keys
  {
  }
}
