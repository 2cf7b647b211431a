/** `FilterTicketsByTitle`: keeps the tickets whose title contains the query, ignoring case. */
module TitleFilter {
  import opened Seqs
  import opened JsString
  import opened Tickets

  /** The query as it is compared, `query.trim().toLowerCase()`: no longer than the query,
      empty exactly for a blank query, otherwise free of surrounding whitespace, and with no
      upper-case ASCII letter. */
  function NormalizedQuery(query: string): (r: string)
    ensures |r| <= |query|
    ensures r == [] <==> AllWhitespace(query)
    ensures r != [] ==> !IsWhitespace(r[0]) && !IsWhitespace(r[|r| - 1])
    ensures forall i :: 0 <= i < |r| ==> !('A' <= r[i] <= 'Z')
  {
    ToLower(Trim(query))
  }

  predicate TitleMatches(t: Ticket, needle: string)
  {
    Includes(ToLower(t.title), needle)
  }

  /** `tickets.filter(...)`: the matching tickets in their input order. */
  function KeepMatching(tickets: seq<Ticket>, needle: string): (r: seq<Ticket>)
    ensures IsSubsequence(r, tickets)
    ensures forall t :: t in r <==> t in tickets && TitleMatches(t, needle)
    ensures forall t :: multiset(r)[t] == if TitleMatches(t, needle) then multiset(tickets)[t] else 0
    decreases |tickets|
  {
    if tickets == [] then []
    else
      var rest := KeepMatching(tickets[1..], needle);
      assert tickets == [tickets[0]] + tickets[1..];
      assert forall t :: t in tickets <==> t == tickets[0] || t in tickets[1..];
      if TitleMatches(tickets[0], needle) then
        assert ([tickets[0]] + rest)[1..] == rest;
        [tickets[0]] + rest
      else rest
  }

  /**
   * `FilterTicketsByTitle.execute`: an empty or whitespace-only query returns the input as it
   * is; otherwise the result keeps exactly the tickets whose lowercased title contains the
   * normalised query (sound and complete), each as often as in the input, in input order.
   */
  function FilterTicketsByTitle(tickets: seq<Ticket>, query: string): (r: seq<Ticket>)
    ensures AllWhitespace(query) ==> r == tickets
    ensures !AllWhitespace(query) ==>
              forall t :: t in r <==> t in tickets && TitleMatches(t, NormalizedQuery(query))
    ensures !AllWhitespace(query) ==>
              forall t :: multiset(r)[t] ==
                if TitleMatches(t, NormalizedQuery(query)) then multiset(tickets)[t] else 0
    ensures IsSubsequence(r, tickets) && |r| <= |tickets|
  {
    if Trim(query) == [] then
      SubsequenceReflexive(tickets);
      tickets
    else
      var r := KeepMatching(tickets, NormalizedQuery(query));
      SubsequenceBounds(r, tickets);
      r
  }

  lemma {:induction false} KeepMatchingIdempotent(tickets: seq<Ticket>, needle: string)
    ensures KeepMatching(KeepMatching(tickets, needle), needle) == KeepMatching(tickets, needle)
    decreases |tickets|
  {
    if tickets != [] {
      KeepMatchingIdempotent(tickets[1..], needle);
      var rest := KeepMatching(tickets[1..], needle);
      if TitleMatches(tickets[0], needle) {
        var r := [tickets[0]] + rest;
        assert r[0] == tickets[0] && r[1..] == rest;
      }
    }
  }

  /** Filtering twice with the same query filters once. */
  lemma FilterIdempotent(tickets: seq<Ticket>, query: string)
    ensures FilterTicketsByTitle(FilterTicketsByTitle(tickets, query), query)
         == FilterTicketsByTitle(tickets, query)
  {
    if Trim(query) != [] {
      KeepMatchingIdempotent(tickets, NormalizedQuery(query));
    }
  }

  /** Whitespace around the query does not change the result. */
  lemma FilterIgnoresPadding(tickets: seq<Ticket>, pre: string, query: string, post: string)
    requires AllWhitespace(pre) && AllWhitespace(post)
    ensures FilterTicketsByTitle(tickets, pre + query + post) == FilterTicketsByTitle(tickets, query)
  {
    TrimIgnoresPadding(pre, query, post);
  }

  /** The ids shown under a query are ids of the unfiltered list. */
  lemma FilteredIdsAreIds(tickets: seq<Ticket>, query: string, id: string)
    requires id in Ids(FilterTicketsByTitle(tickets, query))
    ensures id in Ids(tickets)
  {
    var r := FilterTicketsByTitle(tickets, query);
    IdsMembership(r, id);
    SubsequenceBounds(r, tickets);
    IdsMembership(tickets, id);
  }
}
