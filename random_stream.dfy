/** The random-number stream the randomised generation steps draw from. */
module RandomStreams {
  /** A simple random-number stream: each event-generation attempt consumes one draw. */
  class RandomStream {
    var position: nat

    constructor (start: nat)
      ensures position == start
    {
      position := start;
    }

    method Draw() returns (d: nat)
      modifies this
      ensures d == old(position) && position == old(position) + 1
    {
      d := position;
      position := position + 1;
    }
  }
}
