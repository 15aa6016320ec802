/** The character channel: bytes cross a line whose ninth bit toggles, so that
    the receiver, which wakes only when the line changes, misses none. */
module CharChannel {
  import opened Basics

  /** The value of the line while nothing is sent. */
  const IDLE: nat := 0xff

  /** What happens at the two ends: a byte is sent, or one is read. */
  datatype Event = Send(byte: Byte) | Take

  // ----- the channel as a bounded queue ------------------------------------

  function Sent(es: seq<Event>): seq<Byte>
    decreases |es|
  {
    if es == [] then [] else Sent(es[..|es| - 1]) + match es[|es| - 1] { case Send(b) => [b] case Take => [] }
  }

  /** The bytes waiting to be read; one that finds the queue full is lost. */
  function Waiting(capacity: nat, es: seq<Event>): seq<Byte>
    decreases |es|
  {
    if es == [] then [] else
      var q := Waiting(capacity, es[..|es| - 1]);
      match es[|es| - 1]
      case Send(b) => if |q| < capacity then q + [b] else q
      case Take => if q == [] then q else q[1..]
  }

  /** The bytes read so far. */
  function Taken(capacity: nat, es: seq<Event>): seq<Byte>
    decreases |es|
  {
    if es == [] then [] else
      var q := Waiting(capacity, es[..|es| - 1]);
      Taken(capacity, es[..|es| - 1]) + if es[|es| - 1].Take? && q != [] then [q[0]] else []
  }

  /** Whether event `i` is a byte that finds room. */
  predicate Fits(capacity: nat, es: seq<Event>, i: nat)
    requires i < |es|
  {
    es[i].Send? && |Waiting(capacity, es[..i])| < capacity
  }

  /** The bytes that found room, in the order in which they were sent. */
  function Stored(capacity: nat, es: seq<Event>, n: nat): seq<Byte>
    requires n <= |es|
  {
    if n == 0 then [] else Stored(capacity, es, n - 1) + if Fits(capacity, es, n - 1) then [es[n - 1].byte] else []
  }

  lemma {:induction false} StoredPrefix(capacity: nat, es: seq<Event>, n: nat, m: nat)
    requires n <= m <= |es|
    ensures Stored(capacity, es[..m], n) == Stored(capacity, es, n)
  {
    if n > 0 {
      StoredPrefix(capacity, es, n - 1, m);
      assert es[..m][..n - 1] == es[..n - 1];
    }
  }

  /** What was read and what is waiting are together exactly the bytes that found
      room: none twice, none out of order, none invented. */
  lemma {:induction false} Conserved(capacity: nat, es: seq<Event>)
    ensures Taken(capacity, es) + Waiting(capacity, es) == Stored(capacity, es, |es|)
    decreases |es|
  {
    if es != [] {
      var n := |es| - 1;
      Conserved(capacity, es[..n]);
      StoredPrefix(capacity, es, n, n);
      var t, q := Taken(capacity, es[..n]), Waiting(capacity, es[..n]);
      assert Stored(capacity, es, n) == t + q;
      match es[n] {
        case Send(b) =>
          assert t + (q + [b]) == (t + q) + [b];
        case Take =>
          if q != [] {
            assert (t + [q[0]]) + q[1..] == t + q;
          }
      }
    }
  }

  /** Every byte sent among the first `n` events finds room. */
  predicate Room(capacity: nat, es: seq<Event>, n: nat)
    requires n <= |es|
  {
    forall i :: 0 <= i < n && es[i].Send? ==> Fits(capacity, es, i)
  }

  /** Every byte arrives if and only if the queue has room for each as it comes. */
  lemma Lossless(capacity: nat, es: seq<Event>)
    ensures Taken(capacity, es) + Waiting(capacity, es) == Sent(es) <==> Room(capacity, es, |es|)
  {
    hide Taken, Waiting, Stored, Sent, Room;
    Conserved(capacity, es);
    AllStored(capacity, es, |es|);
    assert es[..|es|] == es;
  }

  lemma {:induction false} AllStored(capacity: nat, es: seq<Event>, n: nat)
    requires n <= |es|
    ensures |Stored(capacity, es, n)| <= |Sent(es[..n])|
    ensures Stored(capacity, es, n) == Sent(es[..n]) <==> Room(capacity, es, n)
    ensures |Stored(capacity, es, n)| == |Sent(es[..n])| <==> Room(capacity, es, n)
  {
    hide Fits;
    if n > 0 {
      AllStored(capacity, es, n - 1);
      assert es[..n][..n - 1] == es[..n - 1] && es[..n][n - 1] == es[n - 1];
      assert Room(capacity, es, n) <==> Room(capacity, es, n - 1) && (es[n - 1].Send? ==> Fits(capacity, es, n - 1));
      OnlySends(capacity, es, n - 1);
    }
  }

  lemma OnlySends(capacity: nat, es: seq<Event>, i: nat)
    requires i < |es|
    ensures Fits(capacity, es, i) ==> es[i].Send?
  {
  }

  // ----- the two threads and the line between them -------------------------

  class Channel {
    const capacity: nat
    var clock: bool
    var line: nat
    var listening: bool  // the receiver has seen the line idle
    var from: seq<Byte>
    var wakes: nat  // changes of the line so far

    /** The ninth bit of the line is the clock, and the receiver listens. */
    ghost predicate Valid()
      reads this
    {
      listening && line < 512 && (line >= 256 <==> clock) && |from| <= capacity
    }

    /** Power-up: the line is 0 until the sender puts it to idle. */
    constructor (capacity: nat)
      ensures this.capacity == capacity && Valid() && from == [] && line == 0xff
    {
      this.capacity := capacity;
      line, listening, from, wakes := 0, false, [], 0;
      new;
      Drive(IDLE);
      clock := false;
    }

    /** A write to the line; the receiver wakes only if it is a change. */
    method Drive(v: nat)
      modifies this`line, this`listening, this`from, this`wakes
      ensures line == v
      ensures v == old(line) ==> listening == old(listening) && from == old(from) && wakes == old(wakes)
      ensures v != old(line) ==> wakes == old(wakes) + 1 && listening == (old(listening) || v == IDLE)
      ensures v != old(line) ==>
        from == if old(listening) && |old(from)| < capacity then old(from) + [v % 256] else old(from)
    {
      var changed := v != line;
      line := v;
      if changed {
        Intake();
        wakes := wakes + 1;
      }
    }

    /** What `intake` does each time it wakes. */
    method Intake()
      modifies this`listening, this`from
      ensures listening == (old(listening) || line == IDLE)
      ensures from == if old(listening) && |old(from)| < capacity then old(from) + [line % 256] else old(from)
    {
      if !listening {
        listening := line == IDLE;
        return;
      }
      var msg := line % 256;
      if |from| < capacity {
        from := from + [msg];
      }
    }

    /** One round of `outtake`: every byte changes the line, whatever it is. */
    method Outtake(msg: Byte)
      requires Valid()
      modifies this
      ensures Valid() && line != old(line) && wakes == old(wakes) + 1
      ensures line % 256 == msg && (line >= 256 <==> old(line) < 256)
      ensures from == if |old(from)| < capacity then old(from) + [msg] else old(from)
    {
      if !clock {
        Drive(0x100 + msg);
      } else {
        Drive(msg);
      }
      clock := !clock;
    }

    method Read() returns (b: Maybe<Byte>)
      requires Valid()
      modifies this`from
      ensures Valid()
      ensures if old(from) == [] then b == None && from == [] else b == Some(old(from)[0]) && from == old(from)[1..]
    {
      if |from| == 0 {
        return None;
      }
      b := Some(from[0]);
      from := from[1..];
    }

    /** Any run of the two ends: the channel is the bounded queue. */
    method Run(es: seq<Event>) returns (taken: seq<Byte>)
      requires Valid() && from == []
      modifies this
      ensures Valid() && from == Waiting(capacity, es) && taken == Taken(capacity, es)
      ensures wakes == old(wakes) + |Sent(es)|
    {
      taken := [];
      for k := 0 to |es|
        invariant Valid() && from == Waiting(capacity, es[..k]) && taken == Taken(capacity, es[..k])
        invariant wakes == old(wakes) + |Sent(es[..k])|
      {
        assert es[..k + 1][..k] == es[..k] && es[..k + 1][k] == es[k];
        match es[k] {
          case Send(b) =>
            Outtake(b);
          case Take =>
            var b := Read();
            if b.Some? {
              taken := taken + [b.value];
            }
        }
      }
      assert es[..|es|] == es;
    }
  }
}
