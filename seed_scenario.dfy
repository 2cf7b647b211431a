/**
 * The six seed tickets of the in-memory repository, with their dates as UTC midnight in
 * milliseconds, and the order and views the store derives from them. Descriptions are left
 * empty: nothing in the engine reads them.
 */
module SeedScenario {
  import opened Priorities
  import opened Tickets
  import opened TicketSorter
  import opened TitleFilter
  import opened OpenState
  import opened Store

  const T1 := Ticket("1", "Safari: botón de pago no responde", High, 1737244800000, "")
  const T2 := Ticket("2", "Agregar modo oscuro", Medium, 1739145600000, "")
  const T3 := Ticket("3", "Tooltip se superpone al header", Low, 1738368000000, "")
  const T4 := Ticket("4", "Navegación móvil falla al rotar", High, 1739577600000, "")
  const T5 := Ticket("5", "Migas de pan en detalle de producto", Medium, 1739318400000, "")
  const T6 := Ticket("6", "Optimizar imágenes del carrusel", Low, 1737763200000, "")

  const Seed := [T1, T2, T3, T4, T5, T6]

  /** High before medium before low, the most recent first within each priority. */
  lemma SeedSortOrder()
    ensures SortTickets(Seed) == [T4, T1, T5, T2, T3, T6]
  {
    SortSix(T1, T2, T3, T4, T5, T6);
  }

  /**
   * Six tickets whose comparisons are those of the seed sort as 4, 1, 5, 2, 3, 6: the first
   * two tickets go after the fourth, the second after the fifth, the third after both and
   * before the last.
   */
  lemma SortSix(a: Ticket, b: Ticket, c: Ticket, d: Ticket, e: Ticket, f: Ticket)
    requires CompareTickets(d, e) <= 0 && CompareTickets(e, f) <= 0
    requires CompareTickets(c, d) > 0 && CompareTickets(c, e) > 0 && CompareTickets(c, f) <= 0
    requires CompareTickets(b, d) > 0 && CompareTickets(b, e) > 0 && CompareTickets(b, c) <= 0
    requires CompareTickets(a, d) > 0 && CompareTickets(a, e) <= 0
    ensures SortTickets([a, b, c, d, e, f]) == [d, a, e, b, c, f]
  {
    SortLastFive(b, c, d, e, f);
    InsertAfterOne(a, d, e, [b, c, f]);
    SplitFive(d, e, b, c, f, a);
    SortFromTail([a, b, c, d, e, f], [d, e, b, c, f], [d, a, e, b, c, f]);
  }

  /** The last five of SortSix sort as d, e, b, c, f. */
  lemma SortLastFive(b: Ticket, c: Ticket, d: Ticket, e: Ticket, f: Ticket)
    requires CompareTickets(d, e) <= 0 && CompareTickets(e, f) <= 0
    requires CompareTickets(c, d) > 0 && CompareTickets(c, e) > 0 && CompareTickets(c, f) <= 0
    requires CompareTickets(b, d) > 0 && CompareTickets(b, e) > 0 && CompareTickets(b, c) <= 0
    ensures SortTickets([b, c, d, e, f]) == [d, e, b, c, f]
  {
    SortLastFour(c, d, e, f);
    InsertAfterTwo(b, d, e, c, [f]);
    SplitFour(d, e, c, f, b);
    SortFromTail([b, c, d, e, f], [d, e, c, f], [d, e, b, c, f]);
  }

  /** The last four of SortSix sort as d, e, c, f. */
  lemma SortLastFour(c: Ticket, d: Ticket, e: Ticket, f: Ticket)
    requires CompareTickets(d, e) <= 0 && CompareTickets(e, f) <= 0
    requires CompareTickets(c, d) > 0 && CompareTickets(c, e) > 0 && CompareTickets(c, f) <= 0
    ensures SortTickets([c, d, e, f]) == [d, e, c, f]
  {
    SortFromTail([f], [], [f]);
    SortFromTail([e, f], [f], [e, f]);
    SortFromTail([d, e, f], [e, f], [d, e, f]);
    InsertAfterTwo(c, d, e, f, []);
    assert [d, e, f] + [] == [d, e, f];
    assert [d, e, c, f] + [] == [d, e, c, f];
    SortFromTail([c, d, e, f], [d, e, f], [d, e, c, f]);
  }

  /** Display splits used by SortLastFive, kept apart from its larger context. */
  lemma SplitFour(d: Ticket, e: Ticket, c: Ticket, f: Ticket, b: Ticket)
    ensures [d, e, c] + [f] == [d, e, c, f]
    ensures [d, e, b, c] + [f] == [d, e, b, c, f]
  {
  }

  /** Display splits used by SortSix, kept apart from its larger context. */
  lemma SplitFive(d: Ticket, e: Ticket, b: Ticket, c: Ticket, f: Ticket, a: Ticket)
    ensures [d, e] + [b, c, f] == [d, e, b, c, f]
    ensures [d, a, e] + [b, c, f] == [d, a, e, b, c, f]
  {
  }

  /** The shown list of the seed with an empty query is the sorted seed. */
  lemma SeedShownUnfiltered()
    ensures ShownTickets(Seed, "") == [T4, T1, T5, T2, T3, T6]
  {
    SeedSortOrder();
  }

  /** A new store after `load` resolved with `tickets`: single mode, reconciled from nothing. */
  method LoadedStore(tickets: seq<Ticket>) returns (store: TicketsStore)
    ensures fresh(store) && store.Valid()
    ensures store.all == tickets && store.query == "" && store.mode == Single
    ensures store.openIds == ReconcileIds(store.Filtered(), Single, [])
  {
    store := new TicketsStore();
    store.Load(tickets);
  }

  /** Loading the seed in single mode opens the first sorted ticket, panel 0. */
  method LoadSeed() returns (store: TicketsStore)
    ensures store.all == Seed && store.query == "" && store.mode == Single
    ensures store.openIds == ["4"]
    ensures store.VisibleOpenIds() == ["4"] && store.OpenPanelIndices() == [0]
  {
    store := LoadedStore(Seed);
    SeedShownUnfiltered();
    FirstOpenReported(store.Filtered(), "4");
  }

  /** With the first shown ticket the one remembered, single mode reports it as panel 0. */
  lemma FirstOpenReported(filtered: seq<Ticket>, id: string)
    requires filtered != [] && filtered[0].id == id
    ensures VisibleOpen(filtered, Single, [id]) == [id]
    ensures OpenState.OpenPanelIndices(filtered, Single, [id]) == [0]
  {
    var one := [id];
    assert one[0] == id && one[1..] == [];
    assert Ids(filtered)[0] == id;
    assert id in Ids(filtered) && id in one;
    assert AnyShown(one, filtered);
  }

  /**
   * After loading, switching to multiple mode keeps the first ticket open, so toggling the
   * first two sorted tickets closes the first and opens the second.
   */
  method SeedMultipleToggles() returns (store: TicketsStore)
    ensures store.mode == Multiple && store.openIds == ["1"]
    ensures forall id :: id in store.VisibleOpenIds() <==> id == "1"
  {
    store := SeedInMultipleMode();
    ToggleAway(store, "4", "1");
  }

  /** The loaded seed switched to multiple mode keeps ticket 4 open and shows tickets 4 and 1. */
  method SeedInMultipleMode() returns (store: TicketsStore)
    ensures fresh(store) && store.Valid()
    ensures store.mode == Multiple && store.openIds == ["4"]
    ensures "4" in Ids(store.Filtered()) && "1" in Ids(store.Filtered())
  {
    store := LoadedStore(Seed);
    SeedShownUnfiltered();
    assert store.openIds == ["4"];
    store.SetMode(Multiple);
    FirstTwoShown(store.Filtered());
  }

  /** In multiple mode with only `a` open, toggling `a` and then another shown `b` leaves `b`. */
  method ToggleAway(store: TicketsStore, a: string, b: string)
    requires store.Valid() && store.mode == Multiple && store.openIds == [a]
    requires a in Ids(store.Filtered()) && b in Ids(store.Filtered()) && a != b
    modifies store
    ensures store.all == old(store.all) && store.query == old(store.query)
    ensures store.mode == Multiple && store.openIds == [b]
    ensures forall id :: id in store.VisibleOpenIds() <==> id == b
  {
    ghost var shown := store.Filtered();
    CloseFirstOpenSecond(shown, a, b);
    store.ToggleOpen(a);
    assert store.Filtered() == shown;
    store.ToggleOpen(b);
    assert store.Filtered() == shown;
    OneOpenReported(shown, b);
  }

  lemma FirstTwoShown(shown: seq<Ticket>)
    requires shown == [T4, T1, T5, T2, T3, T6]
    ensures "4" in Ids(shown) && "1" in Ids(shown)
  {
    assert Ids(shown)[0] == "4" && Ids(shown)[1] == "1";
  }

  /** In multiple mode, toggling the one open id and then another shown id leaves the other. */
  lemma CloseFirstOpenSecond(filtered: seq<Ticket>, a: string, b: string)
    requires a in Ids(filtered) && b in Ids(filtered) && a != b
    ensures ToggleIds(filtered, Multiple, ToggleIds(filtered, Multiple, [a], a), b) == [b]
  {
    var one := [a];
    assert one[0] == a && one[1..] == [];
    assert a in one;
  }

  /** In multiple mode a single remembered id is reported exactly when shown. */
  lemma OneOpenReported(filtered: seq<Ticket>, id: string)
    ensures forall x :: x in VisibleOpen(filtered, Multiple, [id]) <==> x == id && id in Ids(filtered)
  {
  }

  /** One step of the sort: the head is inserted into the sorted tail. */
  lemma SortFromTail(s: seq<Ticket>, sortedTail: seq<Ticket>, r: seq<Ticket>)
    requires s != [] && SortTickets(s[1..]) == sortedTail && Insert(s[0], sortedTail) == r
    ensures SortTickets(s) == r
  {
  }

  /** Insert passes over one head and stops in front of the next ticket. */
  lemma InsertAfterOne(x: Ticket, a: Ticket, b: Ticket, rest: seq<Ticket>)
    requires CompareTickets(x, a) > 0 && CompareTickets(x, b) <= 0
    ensures Insert(x, [a, b] + rest) == [a, x, b] + rest
  {
    var s := [a, b] + rest;
    assert s[0] == a && s[1..] == [b] + rest;
    assert ([b] + rest)[0] == b;
  }

  /** Insert passes over two heads and stops in front of the next ticket. */
  lemma InsertAfterTwo(x: Ticket, a: Ticket, b: Ticket, c: Ticket, rest: seq<Ticket>)
    requires CompareTickets(x, a) > 0 && CompareTickets(x, b) > 0 && CompareTickets(x, c) <= 0
    ensures Insert(x, [a, b, c] + rest) == [a, b, x, c] + rest
  {
    var s := [a, b, c] + rest;
    assert s[0] == a && s[1..] == [b, c] + rest;
    InsertAfterOne(x, b, c, rest);
  }

}
