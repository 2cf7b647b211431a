/**
 * Properties of the store that span several actions: what single mode keeps open, and what
 * survives a change of query in each mode.
 */
module StoreProperties {
  import opened Seqs
  import opened JsSet
  import opened JsString
  import opened Tickets
  import opened TicketSorter
  import opened TitleFilter
  import opened OpenState
  import opened Store

  /** Sorting keeps the set of ids. */
  lemma SortKeepsIds(all: seq<Ticket>, id: string)
    ensures id in Ids(SortTickets(all)) <==> id in Ids(all)
  {
    var sorted := SortTickets(all);
    IdsMembership(sorted, id);
    IdsMembership(all, id);
    assert forall t :: t in sorted <==> t in multiset(sorted);
    assert forall t :: t in all <==> t in multiset(all);
  }

  /** With an empty or blank query every loaded ticket is shown. */
  lemma BlankQueryShowsAll(all: seq<Ticket>, query: string, id: string)
    requires AllWhitespace(query)
    ensures id in Ids(ShownTickets(all, query)) <==> id in Ids(all)
  {
    SortKeepsIds(all, id);
  }

  /** Only loaded tickets are shown. */
  lemma ShownAreLoaded(all: seq<Ticket>, query: string, id: string)
    requires id in Ids(ShownTickets(all, query))
    ensures id in Ids(all)
  {
    FilteredIdsAreIds(SortTickets(all), query, id);
    SortKeepsIds(all, id);
  }

  /**
   * What toggling a shown id does to the panels reported open: in single mode it is the only
   * one; in multiple mode it is reported exactly when it was not remembered before.
   */
  lemma ToggleReportsId(filtered: seq<Ticket>, mode: Mode, openIds: seq<string>, id: string)
    requires id in Ids(filtered)
    ensures mode == Single ==> VisibleOpen(filtered, mode, ToggleIds(filtered, mode, openIds, id)) == [id]
    ensures mode == Multiple ==>
              (id in VisibleOpen(filtered, mode, ToggleIds(filtered, mode, openIds, id)) <==> id !in openIds)
  {
    if mode == Single {
      var r := ToggleIds(filtered, mode, openIds, id);
      assert r[0] == id && AnyShown(r, filtered);
    }
  }

  /** In multiple mode, toggling the same shown id twice remembers the same ids as before. */
  lemma ToggleTwiceRestores(filtered: seq<Ticket>, openIds: seq<string>, id: string)
    ensures forall x :: x in ToggleIds(filtered, Multiple, ToggleIds(filtered, Multiple, openIds, id), id)
                        <==> x in openIds
  {
  }

  /**
   * Sticky selection in single mode: after toggling a shown ticket open, a query that still
   * shows it keeps it open, and clearing the query again leaves it the one open panel.
   */
  lemma SingleStickyRoundTrip(all: seq<Ticket>, query0: string, query: string, openIds: seq<string>, x: string)
    requires x in Ids(ShownTickets(all, query0)) && x in Ids(ShownTickets(all, query))
    ensures var afterToggle := ToggleIds(ShownTickets(all, query0), Single, openIds, x);
            var afterQuery := ReconcileIds(ShownTickets(all, query), Single, afterToggle);
            var afterClear := ReconcileIds(ShownTickets(all, ""), Single, afterQuery);
            afterQuery == [x] && afterClear == [x] &&
            VisibleOpen(ShownTickets(all, ""), Single, afterClear) == [x]
  {
    var afterToggle := ToggleIds(ShownTickets(all, query0), Single, openIds, x);
    assert afterToggle == [x] && x in afterToggle;
    ShownAreLoaded(all, query, x);
    BlankQueryShowsAll(all, "", x);
    assert AnyShown([x], ShownTickets(all, query));
    assert AnyShown([x], ShownTickets(all, ""));
  }

  /**
   * The selection is sticky only while shown: in single mode a query that hides the one open
   * ticket (and shows others) replaces it by the first shown ticket, and clearing the query
   * does not bring it back.
   */
  lemma SingleHiddenSelectionIsReplaced(all: seq<Ticket>, query: string, x: string)
    requires x !in Ids(ShownTickets(all, query)) && ShownTickets(all, query) != []
    ensures var first := ShownTickets(all, query)[0].id;
            var afterQuery := ReconcileIds(ShownTickets(all, query), Single, [x]);
            var afterClear := ReconcileIds(ShownTickets(all, ""), Single, afterQuery);
            first != x && afterQuery == [first] && x !in afterClear &&
            VisibleOpen(ShownTickets(all, ""), Single, afterClear) == [first]
  {
    var shown := ShownTickets(all, query);
    var first := shown[0].id;
    assert Ids(shown)[0] == first;
    assert !AnyShown([x], shown);
    assert first in Ids(ShownTickets(all, query));
    ShownAreLoaded(all, query, first);
    BlankQueryShowsAll(all, "", first);
    var one := [first];
    assert one[0] == first;
    assert AnyShown(one, ShownTickets(all, ""));
  }

  /**
   * Multiple mode never forgets: a remembered id survives any query, and once the query is
   * cleared it is reported open exactly when it is a loaded ticket.
   */
  lemma MultipleKeepsHidden(all: seq<Ticket>, query: string, openIds: seq<string>, x: string)
    requires x in openIds
    ensures var afterQuery := ReconcileIds(ShownTickets(all, query), Multiple, openIds);
            var afterClear := ReconcileIds(ShownTickets(all, ""), Multiple, afterQuery);
            x in afterClear &&
            (x in VisibleOpen(ShownTickets(all, ""), Multiple, afterClear) <==> x in Ids(all))
  {
    BlankQueryShowsAll(all, "", x);
  }

  /**
   * Closing the shown panels in multiple mode keeps the hidden ones: once the query is cleared,
   * a remembered loaded id that the query hid is reported open again.
   */
  lemma CloseKeepsHiddenOpen(all: seq<Ticket>, query: string, openIds: seq<string>, x: string)
    requires x in openIds && x !in Ids(ShownTickets(all, query)) && x in Ids(all)
    ensures x in VisibleOpen(ShownTickets(all, ""), Multiple, CloseShownIds(ShownTickets(all, query), openIds))
  {
    BlankQueryShowsAll(all, "", x);
  }

  /**
   * Switching to single mode with several remembered ids keeps all of them when one is shown,
   * and reports the first shown one in insertion order; with none shown it falls back to the
   * first shown ticket.
   */
  lemma SwitchToSingle(filtered: seq<Ticket>, openIds: seq<string>)
    requires filtered != []
    ensures var r := ReconcileIds(filtered, Single, openIds);
            AnyShown(openIds, filtered) ==>
              r == openIds && VisibleOpen(filtered, Single, r) == [openIds[FirstShownIndex(openIds, filtered)]]
    ensures !AnyShown(openIds, filtered) ==>
              VisibleOpen(filtered, Single, ReconcileIds(filtered, Single, openIds)) == [filtered[0].id]
  {
    var r := ReconcileIds(filtered, Single, openIds);
    if !AnyShown(openIds, filtered) {
      assert r == [filtered[0].id];
      assert Ids(filtered)[0] == filtered[0].id;
      assert r[0] in r && AnyShown(r, filtered);
    }
  }

  /** The sticky round trip driven through the store's own actions. */
  method StickyRoundTrip(store: TicketsStore, x: string, query: string)
    requires store.Valid() && store.mode == Single
    requires x in Ids(store.Filtered()) && x in Ids(ShownTickets(store.all, query))
    modifies store
    ensures store.all == old(store.all) && store.mode == Single && store.query == ""
    ensures store.openIds == [x] && store.VisibleOpenIds() == [x]
  {
    SingleStickyRoundTrip(store.all, store.query, query, store.openIds, x);
    store.ToggleOpen(x);
    store.SetQuery(query);
    store.SetQuery("");
  }
}
