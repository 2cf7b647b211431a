/**
 * The tickets store: the loaded tickets, the search query, the accordion mode and the
 * remembered open ids, with the derived views the page reads and the actions it calls.
 */
module Store {
  import opened Seqs
  import opened JsSet
  import opened JsString
  import opened Tickets
  import opened TicketSorter
  import opened TitleFilter
  import opened OpenState

  /**
   * What the store shows for a ticket list and a query, `filtered` over `sorted`: always in
   * business order; every loaded ticket for a blank query, otherwise exactly the loaded
   * tickets whose title matches, each as often as it was loaded.
   */
  function ShownTickets(all: seq<Ticket>, query: string): (r: seq<Ticket>)
    ensures |r| <= |all| && Sorted(r)
    ensures AllWhitespace(query) ==> multiset(r) == multiset(all)
    ensures !AllWhitespace(query) ==>
              forall t :: multiset(r)[t] ==
                if TitleMatches(t, NormalizedQuery(query)) then multiset(all)[t] else 0
  {
    var sorted := SortTickets(all);
    assert |sorted| == |multiset(all)| == |all|;
    var r := FilterTicketsByTitle(sorted, query);
    SubsequenceSorted(r, sorted);
    r
  }

  /** Deleting tickets from a sorted sequence leaves it sorted. */
  lemma {:induction false} SubsequenceSorted(a: seq<Ticket>, b: seq<Ticket>)
    requires IsSubsequence(a, b) && Sorted(b)
    ensures Sorted(a)
    decreases |b|
  {
    if a != [] {
      SortedTail(b);
      if a[0] == b[0] && IsSubsequence(a[1..], b[1..]) {
        SubsequenceSorted(a[1..], b[1..]);
        SubsequenceBounds(a[1..], b[1..]);
        forall j | 0 <= j < |a[1..]| ensures CompareTickets(a[0], a[1..][j]) <= 0 {
          assert a[1..][j] in b[1..];
          SortedHeadLeads(b, a[1..][j]);
        }
        SortedCons(a[0], a[1..]);
        assert a == [a[0]] + a[1..];
      } else {
        SubsequenceSorted(a, b[1..]);
      }
    }
  }

  class TicketsStore {
    var all: seq<Ticket>
    var query: string
    var openIds: seq<string>
    var mode: Mode

    /** `openIds` is a set, and the single-mode repair step has nothing left to do. */
    ghost predicate Valid()
      reads this
    {
      NoDuplicates(openIds) && Settled(Filtered(), mode, openIds)
    }

    /** The initial state: no tickets, empty query, single mode, nothing open. */
    constructor ()
      ensures Valid()
      ensures all == [] && query == "" && openIds == [] && mode == Single
    {
      all := [];
      query := "";
      openIds := [];
      mode := Single;
    }

    /** The getter `sorted`: the loaded tickets in business order. */
    function SortedTickets(): (r: seq<Ticket>)
      reads this`all
      ensures multiset(r) == multiset(all) && Sorted(r)
    {
      SortTickets(all)
    }

    /** The getter `filtered`: the sorted tickets the query keeps, still in business order. */
    function Filtered(): (r: seq<Ticket>)
      reads this`all, this`query
      ensures IsSubsequence(r, SortedTickets()) && Sorted(r)
      ensures AllWhitespace(query) ==> r == SortedTickets()
    {
      ShownTickets(all, query)
    }

    /**
     * The getter `visibleOpenIds`: the ids `VisibleOpen` reports for the current fields. Only
     * shown ids, and in a valid single-mode store with tickets shown, exactly one id, which
     * the store remembers.
     */
    function VisibleOpenIds(): (r: seq<string>)
      reads this
      ensures r == VisibleOpen(Filtered(), mode, openIds)
      ensures forall id :: id in r ==> id in Ids(Filtered())
      ensures Valid() && mode == Single && Filtered() != [] ==> |r| == 1 && r[0] in openIds
    {
      SingleModeOneOpen(Filtered(), openIds);
      VisibleOpen(Filtered(), mode, openIds)
    }

    /** The getter `openPanelIndices`: for each reported id, the first position that shows it. */
    function OpenPanelIndices(): (r: seq<int>)
      reads this
      ensures |r| == |VisibleOpenIds()|
      ensures forall i :: 0 <= i < |r| ==> 0 <= r[i] < |Filtered()| && Filtered()[r[i]].id == VisibleOpenIds()[i]
      ensures forall i :: 0 <= i < |r| ==> r[i] == FindIndex(Filtered(), VisibleOpenIds()[i])
    {
      OpenState.OpenPanelIndices(Filtered(), mode, openIds)
    }

    /** `ensureOpenWhenListChanges`: repairs `openIds` after the shown list or the mode changed. */
    method EnsureOpenWhenListChanges()
      requires NoDuplicates(openIds)
      modifies this
      ensures all == old(all) && query == old(query) && mode == old(mode)
      ensures openIds == ReconcileIds(Filtered(), mode, old(openIds))
      ensures Valid()
    {
      var filtered := Filtered();
      if mode == Multiple {
        return;
      }
      if |filtered| == 0 {
        openIds := [];
        return;
      }
      var hasVisibleOpen := AnyShown(openIds, filtered);
      if hasVisibleOpen {
        return;
      }
      openIds := [];
      openIds := Add(openIds, filtered[0].id);
    }

    /** `load`, once the tickets have arrived: replaces `all`, then repairs `openIds`. */
    method Load(tickets: seq<Ticket>)
      requires Valid()
      modifies this
      ensures all == tickets && query == old(query) && mode == old(mode)
      ensures openIds == ReconcileIds(Filtered(), mode, old(openIds))
      ensures Valid()
    {
      all := tickets;
      EnsureOpenWhenListChanges();
    }

    /** `setQuery`: replaces the query, then repairs `openIds`. */
    method SetQuery(q: string)
      requires Valid()
      modifies this
      ensures query == q && all == old(all) && mode == old(mode)
      ensures openIds == ReconcileIds(Filtered(), mode, old(openIds))
      ensures Valid()
    {
      query := q;
      EnsureOpenWhenListChanges();
    }

    /** `setMode`: replaces the mode, then repairs `openIds`. */
    method SetMode(m: Mode)
      requires Valid()
      modifies this
      ensures mode == m && all == old(all) && query == old(query)
      ensures openIds == ReconcileIds(Filtered(), m, old(openIds))
      ensures Valid()
    {
      mode := m;
      EnsureOpenWhenListChanges();
    }

    /** `toggleOpen(id)`. */
    method ToggleOpen(id: string)
      requires Valid()
      modifies this
      ensures all == old(all) && query == old(query) && mode == old(mode)
      ensures openIds == ToggleIds(Filtered(), mode, old(openIds), id)
      ensures Valid()
    {
      ghost var target := ToggleIds(Filtered(), mode, openIds, id);
      var found := id in Ids(Filtered());
      if !found {
        return;
      }
      if mode == Single {
        openIds := [];
        openIds := Add(openIds, id);
        assert id in openIds;
      } else if id in openIds {
        openIds := Delete(openIds, id);
      } else {
        openIds := Add(openIds, id);
      }
      assert openIds == target;
    }

    /** `setOpenIndices(arg)`: the `v-model` of the panels, as positions in `filtered`. */
    method SetOpenIndices(arg: IndexArg)
      requires Valid()
      modifies this
      ensures all == old(all) && query == old(query) && mode == old(mode)
      ensures openIds == SetIndicesIds(Filtered(), mode, old(openIds), arg)
      ensures Valid()
    {
      ghost var target := SetIndicesIds(Filtered(), mode, openIds, arg);
      if arg == NoIndices {
        if mode == Single {
          EnsureOpenWhenListChanges();
        } else {
          openIds := [];
        }
        assert openIds == target;
        return;
      }
      var newOpenIds := CollectIndexIds(Filtered(), IndexArray(arg));
      StoreIndexIds(newOpenIds);
      assert openIds == target;
    }

    /**
     * The end of `setOpenIndices`: stores the ids collected from the positions, then in single
     * mode reconciles when none of the positions was in range.
     */
    method StoreIndexIds(newOpenIds: seq<string>)
      requires Valid()
      requires NoDuplicates(newOpenIds) && forall id :: id in newOpenIds ==> id in Ids(Filtered())
      modifies this
      ensures all == old(all) && query == old(query) && mode == old(mode)
      ensures mode == Single && newOpenIds == [] ==> openIds == ReconcileIds(Filtered(), mode, [])
      ensures mode == Multiple || newOpenIds != [] ==> openIds == newOpenIds
      ensures Valid()
    {
      openIds := newOpenIds;
      if mode == Single && |openIds| == 0 {
        EnsureOpenWhenListChanges();
      } else if openIds != [] {
        assert openIds[0] in openIds;
      }
    }

    /** `closeAllVisible`: in multiple mode, closes every shown panel and keeps hidden ones. */
    method CloseAllVisible()
      requires Valid()
      modifies this
      ensures all == old(all) && query == old(query) && mode == old(mode)
      ensures mode == Single ==> openIds == old(openIds)
      ensures mode == Multiple ==> openIds == CloseShownIds(Filtered(), old(openIds))
      ensures Valid()
    {
      if mode != Multiple {
        return;
      }
      var shown := Filtered();
      var visibleIds := Ids(shown);
      var visited := openIds;
      var i := 0;
      while i < |visited|
        invariant 0 <= i <= |visited|
        invariant openIds == CloseShownIds(shown, visited[..i]) + visited[i..]
        modifies this`openIds
      {
        var id := visited[i];
        ghost var next := CloseShownIds(shown, visited[..i + 1]) + visited[i + 1..];
        CloseStep(shown, visited, i, openIds);
        if id in visibleIds {
          openIds := Delete(openIds, id);
        }
        assert openIds == next;
        i := i + 1;
      }
      CloseDone(shown, visited, openIds);
    }
  }

  /** The `forEach` of `setOpenIndices`: a fresh Set of the ids at the in-range positions. */
  method CollectIndexIds(filtered: seq<Ticket>, indexArray: seq<int>) returns (newOpenIds: seq<string>)
    ensures newOpenIds == IdsAtIndices(filtered, indexArray)
  {
    newOpenIds := [];
    var n := 0;
    while n < |indexArray|
      invariant 0 <= n <= |indexArray|
      invariant newOpenIds == IdsAtIndices(filtered, indexArray[..n])
    {
      var index := indexArray[n];
      if 0 <= index < |filtered| {
        newOpenIds := Add(newOpenIds, filtered[index].id);
      }
      assert indexArray[..n + 1][..n] == indexArray[..n];
      n := n + 1;
    }
    assert indexArray[..n] == indexArray;
  }

  /** One turn of the closing loop. */
  lemma CloseStep(shown: seq<Ticket>, visited: seq<string>, i: nat, current: seq<string>)
    requires NoDuplicates(visited) && i < |visited|
    requires current == CloseShownIds(shown, visited[..i]) + visited[i..]
    ensures visited[i] in Ids(shown) ==>
              Delete(current, visited[i]) == CloseShownIds(shown, visited[..i + 1]) + visited[i + 1..]
    ensures visited[i] !in Ids(shown) ==>
              current == CloseShownIds(shown, visited[..i + 1]) + visited[i + 1..]
  {
    if visited[i] in Ids(shown) {
      DeleteVisited(shown, visited, i);
    } else {
      KeepVisited(shown, visited, i);
    }
  }

  /** When the closing loop has visited every id, it has closed them all. */
  lemma CloseDone(shown: seq<Ticket>, visited: seq<string>, current: seq<string>)
    requires current == CloseShownIds(shown, visited[..|visited|]) + visited[|visited|..]
    ensures current == CloseShownIds(shown, visited)
  {
    assert visited[..|visited|] == visited;
    assert visited[|visited|..] == [];
    assert CloseShownIds(shown, visited) + [] == CloseShownIds(shown, visited);
  }

  /** Deleting the visited id, which occurs nowhere else, advances the closing loop one step. */
  lemma DeleteVisited(filtered: seq<Ticket>, visited: seq<string>, i: nat)
    requires NoDuplicates(visited) && i < |visited| && visited[i] in Ids(filtered)
    ensures Delete(CloseShownIds(filtered, visited[..i]) + visited[i..], visited[i])
         == CloseShownIds(filtered, visited[..i + 1]) + visited[i + 1..]
  {
    var x, front, rest := visited[i], visited[..i], visited[i + 1..];
    var done := CloseShownIds(filtered, front);
    SplitAt(visited, i);
    OccursOnce(visited, i);
    CloseShownAppend(filtered, front, [x]);
    CloseShownSingle(filtered, x);
    assert x !in done;
    DeleteBetween(done, x, rest);
  }

  /** Deleting a value that occurs once, between `done` and `rest`, leaves `done + rest`. */
  lemma DeleteBetween(done: seq<string>, x: string, rest: seq<string>)
    requires x !in done && x !in rest
    ensures Delete(done + ([x] + rest), x) == done + [] + rest
  {
    DeleteAppend(done, [x] + rest, x);
    assert ([x] + rest)[1..] == rest;
    assert done + [] == done;
  }

  /** Keeping a hidden visited id advances the closing loop one step. */
  lemma KeepVisited(filtered: seq<Ticket>, visited: seq<string>, i: nat)
    requires i < |visited| && visited[i] !in Ids(filtered)
    ensures CloseShownIds(filtered, visited[..i]) + visited[i..]
         == CloseShownIds(filtered, visited[..i + 1]) + visited[i + 1..]
  {
    var x, front, rest := visited[i], visited[..i], visited[i + 1..];
    SplitAt(visited, i);
    CloseShownAppend(filtered, front, [x]);
    CloseShownSingle(filtered, x);
    AppendAssoc(CloseShownIds(filtered, front), [x], rest);
  }
}
