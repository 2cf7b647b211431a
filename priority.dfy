/** Ticket priorities and the weights the ordering compares. */
module Priorities {

  datatype Priority = High | Medium | Low

  /** `PriorityWeight`: the larger weight is the more urgent priority. */
  function Weight(p: Priority): (w: int)
    ensures 1 <= w <= 3
  {
    match p
    case High => 3
    case Medium => 2
    case Low => 1
  }

  /** The weights are the table high 3, medium 2, low 1, strictly decreasing in that order. */
  lemma WeightTable()
    ensures Weight(High) == 3 && Weight(Medium) == 2 && Weight(Low) == 1
    ensures Weight(High) > Weight(Medium) > Weight(Low)
  {
  }

  /** Distinct priorities have distinct weights, so comparing weights compares priorities. */
  lemma WeightInjective(p: Priority, q: Priority)
    ensures Weight(p) == Weight(q) <==> p == q
  {
  }
}
