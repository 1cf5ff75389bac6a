/** The try-lock over a one-slot channel (daemon/system/locker.go). */
module Locker {

  /** The channel: open, with or without a token in its slot, or closed and set to nil. */
  datatype Channel = Open(full: bool) | Nil

  /** A non-blocking send: on a full or nil channel the default branch is taken. */
  function Acquired(ch: Channel): (Channel, bool) {
    if ch == Open(false) then (Open(true), true) else (ch, false)
  }

  /** A non-blocking receive. */
  function Released(ch: Channel): Channel {
    if ch.Open? then Open(false) else ch
  }

  class Locker {
    var ch: Channel

    constructor ()
      ensures ch == Open(false)
    {
      ch := Open(false);
    }

    method IsLocked() returns (r: bool)
      ensures r <==> ch == Open(true)
    {
      r := ch.Open? && ch.full;
    }

    method Acquire() returns (ok: bool)
      modifies this
      ensures (ch, ok) == Acquired(old(ch))
    {
      if ch.Open? && !ch.full {
        ch := Open(true);
        return true;
      }
      return false;
    }

    /** Returns once the slot was free or the context is done; if both, either may win. */
    method TryAcquire(ctxDone: bool) returns (ok: bool)
      requires ctxDone || ch == Open(false)
      modifies this
      ensures if ok then (ch, ok) == Acquired(old(ch)) else ctxDone && ch == old(ch)
    {
      if {
        case ch == Open(false) =>
          ch := Open(true);
          return true;
        case ctxDone =>
          return false;
      }
    }

    method Release()
      modifies this
      ensures ch == Released(old(ch))
    {
      if ch.Open? {
        ch := Open(false);
      }
    }

    method Destroy()
      modifies this
      ensures ch == Nil
    {
      ch := Nil;
    }
  }

  datatype Call = CallAcquire | CallRelease | CallDestroy

  function After(ch: Channel, calls: seq<Call>): Channel
    decreases |calls|
  {
    if calls == [] then ch
    else match calls[0]
      case CallAcquire => After(Acquired(ch).0, calls[1..])
      case CallRelease => After(Released(ch), calls[1..])
      case CallDestroy => After(Nil, calls[1..])
  }

  /** A lock that has been destroyed can never be acquired again, whatever is called on it. */
  lemma {:induction false} DestroyedStaysDestroyed(ch: Channel, calls: seq<Call>)
    requires ch == Nil
    ensures After(ch, calls) == Nil && !Acquired(After(ch, calls)).1
  {
    if calls != [] {
      DestroyedStaysDestroyed(ch, calls[1..]);
    }
  }
}
