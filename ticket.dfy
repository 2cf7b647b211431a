/** The ticket entity, a value the engine never changes. */
module Tickets {
  import opened Priorities

  /** `updatedAt` is the instant as milliseconds since the epoch, the value of `getTime()`. */
  datatype Ticket = Ticket(id: string, title: string, priority: Priority, updatedAt: int, description: string)

  /** The ids of the tickets, position by position. */
  function Ids(tickets: seq<Ticket>): (r: seq<string>)
    ensures |r| == |tickets|
    ensures forall i :: 0 <= i < |tickets| ==> r[i] == tickets[i].id
  {
    if tickets == [] then [] else [tickets[0].id] + Ids(tickets[1..])
  }

  /** An id is in `Ids(tickets)` exactly when some ticket carries it. */
  lemma IdsMembership(tickets: seq<Ticket>, id: string)
    ensures id in Ids(tickets) <==> exists t :: t in tickets && t.id == id
  {
    if id in Ids(tickets) {
      var i :| 0 <= i < |tickets| && Ids(tickets)[i] == id;
      assert tickets[i] in tickets;
    }
  }
}
