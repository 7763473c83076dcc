/**
 * `ConnectionLimitHandler`: admission control for one listen endpoint. All
 * handlers of an endpoint share one connection counter; a connection
 * that would push it above `maxConn` is closed as soon as it is accepted,
 * and its activation goes no further down the pipeline.
 */
module ConnectionLimits {
  import opened JavaText

  /** The endpoint's shared `AtomicInteger`. */
  class ConnectionCounter {
    var current: int

    constructor(current: int)
      ensures this.current == current
    {
      this.current := current;
    }
  }

  /**
   * `channelActive` on a counter value: the 32-bit increment, then either
   * admission or the decrement back. The first component says whether the
   * connection was admitted.
   */
  function Admit(current: int, maxConn: int): (r: (bool, int))
    requires INT_MIN <= current <= INT_MAX
    ensures INT_MIN <= r.1 <= INT_MAX
    ensures current < INT_MAX ==> (r.0 <==> current + 1 <= maxConn)
    ensures current < INT_MAX ==> r.1 == current + (if r.0 then 1 else 0)
    ensures !r.0 ==> r.1 == current
  {
    var now := Wrap32(current + 1);
    if now > maxConn then (false, Wrap32(now - 1)) else (true, now)
  }

  /** `channelInactive` on a counter value: a counted connection gives its place back. */
  function Release(current: int, counted: bool): (r: int)
    requires INT_MIN <= current <= INT_MAX
    ensures INT_MIN <= r <= INT_MAX
    ensures !counted ==> r == current
    ensures counted && current > INT_MIN ==> r == current - 1
  {
    if counted then Wrap32(current - 1) else current
  }

  class ConnectionLimitHandler {
    const maxConn: int
    const shared: ConnectionCounter
    var counted: bool

    constructor(maxConn: int, shared: ConnectionCounter)
      ensures this.maxConn == maxConn && this.shared == shared && !counted
    {
      this.maxConn := maxConn;
      this.shared := shared;
      counted := false;
    }

    /**
     * `channelActive`: `admitted` is true when the event is passed on and
     * false when the channel is closed instead. Only an admitted
     * connection is remembered as counted.
     */
    method ChannelActive() returns (admitted: bool)
      requires INT_MIN <= shared.current <= INT_MAX
      modifies this, shared
      ensures (admitted, shared.current) == Admit(old(shared.current), maxConn)
      ensures counted == (old(counted) || admitted)
    {
      var now := Wrap32(shared.current + 1);
      shared.current := now;
      if now > maxConn {
        shared.current := Wrap32(shared.current - 1);
        return false;
      }
      counted := true;
      return true;
    }

    /** `channelInactive`: a counted connection decrements the counter; the event always goes on. */
    method ChannelInactive()
      requires INT_MIN <= shared.current <= INT_MAX
      modifies shared
      ensures shared.current == Release(old(shared.current), counted)
    {
      if counted {
        shared.current := Wrap32(shared.current - 1);
      }
    }
  }

  /**
   * A rejected connection leaves the counter as it found it, and so does
   * an admitted one once it closes, even across the 32-bit wrap.
   */
  lemma CounterRestored(current: int, maxConn: int)
    requires INT_MIN <= current <= INT_MAX
    ensures var (admitted, after) := Admit(current, maxConn);
      Release(after, admitted) == current
  {
    WrapBack(current);
  }

  lemma WrapBack(current: int)
    requires INT_MIN <= current <= INT_MAX
    ensures Wrap32(Wrap32(current + 1) - 1) == current
  {
    if current == INT_MAX {
      assert Wrap32(current + 1) == INT_MIN;
    }
  }

  /** Admission never carries the counter above `maxConn` unless it already was. */
  lemma AdmitBounded(current: int, maxConn: int)
    requires INT_MIN <= current <= INT_MAX && INT_MIN <= maxConn <= INT_MAX
    ensures Admit(current, maxConn).1 <= if current <= maxConn then maxConn else current
  {
  }
}
