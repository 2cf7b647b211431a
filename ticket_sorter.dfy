/**
 * Business ordering of tickets: higher priority weight first, then the most recently updated
 * first, with ties kept in input order.
 */
module TicketSorter {
  import opened Priorities
  import opened Tickets

  /** Neither ticket sorts before the other: equal priority and equal timestamp. */
  predicate SameKey(a: Ticket, b: Ticket)
  {
    a.priority == b.priority && a.updatedAt == b.updatedAt
  }

  /** `compareTickets`: negative when `a` sorts first, positive when `b` does, zero on a tie. */
  function CompareTickets(a: Ticket, b: Ticket): (r: int)
    ensures Weight(a.priority) > Weight(b.priority) ==> r < 0
    ensures Weight(a.priority) < Weight(b.priority) ==> r > 0
    ensures a.priority == b.priority ==> (r < 0 <==> a.updatedAt > b.updatedAt)
    ensures r == 0 <==> SameKey(a, b)
  {
    var priorityDiff := Weight(b.priority) - Weight(a.priority);
    if priorityDiff != 0 then priorityDiff else b.updatedAt - a.updatedAt
  }

  lemma CompareAntisymmetric(a: Ticket, b: Ticket)
    ensures CompareTickets(a, b) == -CompareTickets(b, a)
  {
  }

  lemma CompareTransitive(a: Ticket, b: Ticket, c: Ticket)
    requires CompareTickets(a, b) <= 0 && CompareTickets(b, c) <= 0
    ensures CompareTickets(a, c) <= 0
    ensures CompareTickets(a, b) < 0 || CompareTickets(b, c) < 0 ==> CompareTickets(a, c) < 0
  {
  }

  /** Every earlier ticket compares at most equal to every later one. */
  predicate Sorted(s: seq<Ticket>)
  {
    forall i, j :: 0 <= i < j < |s| ==> CompareTickets(s[i], s[j]) <= 0
  }

  /** Places `x` in front of the first ticket it does not sort after. */
  function Insert(x: Ticket, s: seq<Ticket>): (r: seq<Ticket>)
    ensures multiset(r) == multiset(s) + multiset{x}
    ensures |r| == |s| + 1
    decreases |s|
  {
    if s == [] then [x]
    else if CompareTickets(x, s[0]) <= 0 then [x] + s
    else
      assert s == [s[0]] + s[1..];
      [s[0]] + Insert(x, s[1..])
  }

  /** A ticket that sorts no later than every ticket of a sorted sequence can lead it. */
  lemma SortedCons(x: Ticket, s: seq<Ticket>)
    requires Sorted(s)
    requires forall j :: 0 <= j < |s| ==> CompareTickets(x, s[j]) <= 0
    ensures Sorted([x] + s)
  {
    var r := [x] + s;
    forall i, j | 0 <= i < j < |r| ensures CompareTickets(r[i], r[j]) <= 0 {
      assert r[j] == s[j - 1];
      if i > 0 {
        assert r[i] == s[i - 1];
      }
    }
  }

  lemma {:induction false} InsertKeepsSorted(x: Ticket, s: seq<Ticket>)
    requires Sorted(s)
    ensures Sorted(Insert(x, s))
    decreases |s|
  {
    if s == [] {
    } else if CompareTickets(x, s[0]) <= 0 {
      forall j | 0 <= j < |s| ensures CompareTickets(x, s[j]) <= 0 {
        if j > 0 { CompareTransitive(x, s[0], s[j]); }
      }
      SortedCons(x, s);
    } else {
      var rest := Insert(x, s[1..]);
      assert Sorted(s[1..]) by {
        forall i, j | 0 <= i < j < |s[1..]| ensures CompareTickets(s[1..][i], s[1..][j]) <= 0 {
          assert s[1..][i] == s[i + 1] && s[1..][j] == s[j + 1];
        }
      }
      InsertKeepsSorted(x, s[1..]);
      forall j | 0 <= j < |rest| ensures CompareTickets(s[0], rest[j]) <= 0 {
        assert rest[j] in multiset(rest);
        if rest[j] == x {
          CompareAntisymmetric(x, s[0]);
        } else {
          assert rest[j] in multiset(s[1..]);
          var k :| 0 <= k < |s[1..]| && s[1..][k] == rest[j];
          assert s[k + 1] == rest[j];
        }
      }
      SortedCons(s[0], rest);
    }
  }

  /**
   * `sortTickets`: a sorted permutation of its input, as a new sequence (the input is a value
   * and stays as it was). Priority weights never increase along the result.
   */
  function SortTickets(tickets: seq<Ticket>): (r: seq<Ticket>)
    ensures multiset(r) == multiset(tickets)
    ensures Sorted(r)
    ensures forall i :: 0 <= i < |r| - 1 ==> Weight(r[i].priority) >= Weight(r[i + 1].priority)
    decreases |tickets|
  {
    if tickets == [] then []
    else
      var rest := SortTickets(tickets[1..]);
      InsertKeepsSorted(tickets[0], rest);
      assert tickets == [tickets[0]] + tickets[1..];
      Insert(tickets[0], rest)
  }

  /** The tickets of `s` that tie with `k`, in their order in `s`. */
  function Ties(s: seq<Ticket>, k: Ticket): (r: seq<Ticket>)
    decreases |s|
  {
    if s == [] then []
    else if SameKey(s[0], k) then [s[0]] + Ties(s[1..], k)
    else Ties(s[1..], k)
  }

  lemma {:induction false} TiesMembers(s: seq<Ticket>, k: Ticket)
    ensures forall e :: e in Ties(s, k) <==> e in s && SameKey(e, k)
    decreases |s|
  {
    if s != [] {
      TiesMembers(s[1..], k);
      assert forall e :: e in s <==> e == s[0] || e in s[1..];
    }
  }

  /** Ties(s, k) depends on `k` only through its key. */
  lemma {:induction false} TiesByKey(s: seq<Ticket>, k: Ticket, k': Ticket)
    requires SameKey(k, k')
    ensures Ties(s, k) == Ties(s, k')
    decreases |s|
  {
    if s != [] {
      TiesByKey(s[1..], k, k');
    }
  }

  lemma {:induction false} InsertTies(x: Ticket, s: seq<Ticket>, k: Ticket)
    ensures Ties(Insert(x, s), k) == if SameKey(x, k) then [x] + Ties(s, k) else Ties(s, k)
    decreases |s|
  {
    if s == [] {
      assert Ties([x], k) == if SameKey(x, k) then [x] else [];
    } else if CompareTickets(x, s[0]) <= 0 {
      var r := [x] + s;
      assert r[0] == x && r[1..] == s;
    } else {
      var r := [s[0]] + Insert(x, s[1..]);
      assert r[0] == s[0] && r[1..] == Insert(x, s[1..]);
      InsertTies(x, s[1..], k);
    }
  }

  /** Stability: the tickets that tie keep their input order in the sorted result. */
  lemma {:induction false} SortStable(tickets: seq<Ticket>, k: Ticket)
    ensures Ties(SortTickets(tickets), k) == Ties(tickets, k)
    decreases |tickets|
  {
    if tickets != [] {
      SortStable(tickets[1..], k);
      InsertTies(tickets[0], SortTickets(tickets[1..]), k);
    }
  }

  lemma SortedTail(s: seq<Ticket>)
    requires Sorted(s) && s != []
    ensures Sorted(s[1..])
  {
    forall i, j | 0 <= i < j < |s[1..]| ensures CompareTickets(s[1..][i], s[1..][j]) <= 0 {
      assert s[1..][i] == s[i + 1] && s[1..][j] == s[j + 1];
    }
  }

  /** The head of a sorted sequence sorts no later than any of its tickets. */
  lemma SortedHeadLeads(s: seq<Ticket>, e: Ticket)
    requires Sorted(s) && e in s
    ensures CompareTickets(s[0], e) <= 0
  {
    var i :| 0 <= i < |s| && s[i] == e;
    if i == 0 {
      assert SameKey(e, e);
    }
  }

  /** The heads of two sorted sequences with the same tie classes tie. */
  lemma HeadsTie(a: seq<Ticket>, b: seq<Ticket>)
    requires Sorted(a) && Sorted(b) && a != [] && b != []
    requires forall k :: Ties(a, k) == Ties(b, k)
    ensures SameKey(a[0], b[0])
  {
    var x, y := a[0], b[0];
    TiesMembers(a, y);
    TiesMembers(b, y);
    TiesMembers(a, x);
    TiesMembers(b, x);
    assert SameKey(x, x) && SameKey(y, y);
    assert y in Ties(b, y) && x in Ties(a, x);
    assert Ties(a, y) == Ties(b, y) && Ties(a, x) == Ties(b, x);
    SortedHeadLeads(a, y);
    SortedHeadLeads(b, x);
    CompareAntisymmetric(x, y);
  }

  /**
   * Two sorted sequences with the same tie classes are equal. With SortStable this says that
   * SortTickets is the only stable sort by CompareTickets, so it is the result of any stable
   * sort with that comparator, `Array.prototype.sort` among them.
   */
  lemma {:induction false} SortedTiesDetermine(a: seq<Ticket>, b: seq<Ticket>)
    requires Sorted(a) && Sorted(b)
    requires forall k :: Ties(a, k) == Ties(b, k)
    ensures a == b
    decreases |a|
  {
    assert a != [] ==> Ties(a, a[0]) != [];
    assert b != [] ==> Ties(b, b[0]) != [];
    if a != [] && b != [] {
      var x, y := a[0], b[0];
      HeadsTie(a, b);
      assert Ties(a, x) == [x] + Ties(a[1..], x);
      assert Ties(b, x) == [y] + Ties(b[1..], x);
      var ta, tb := Ties(a[1..], x), Ties(b[1..], x);
      assert [x] + ta == [y] + tb;
      assert ([x] + ta)[0] == x && ([y] + tb)[0] == y;
      assert ([x] + ta)[1..] == ta && ([y] + tb)[1..] == tb;
      assert x == y && ta == tb;
      forall k ensures Ties(a[1..], k) == Ties(b[1..], k) {
        if SameKey(x, k) {
          TiesByKey(a[1..], x, k);
          TiesByKey(b[1..], x, k);
        } else {
          assert Ties(a, k) == Ties(a[1..], k);
          assert Ties(b, k) == Ties(b[1..], k);
        }
      }
      SortedTail(a);
      SortedTail(b);
      SortedTiesDetermine(a[1..], b[1..]);
      assert a == [x] + a[1..] && b == [y] + b[1..];
    }
  }

  /** Any sorted sequence that keeps every tie class of `tickets` in order is SortTickets(tickets). */
  lemma SortIsUniqueStableSort(tickets: seq<Ticket>, r: seq<Ticket>)
    requires Sorted(r)
    requires forall k :: Ties(r, k) == Ties(tickets, k)
    ensures r == SortTickets(tickets)
  {
    forall k ensures Ties(r, k) == Ties(SortTickets(tickets), k) {
      SortStable(tickets, k);
    }
    SortedTiesDetermine(r, SortTickets(tickets));
  }
}
