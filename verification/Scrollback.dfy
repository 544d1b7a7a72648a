/** The bounded output buffer of a session (internal/agent/domain/terminal/scrollback.go): it holds
    the tail of an unbounded log and serves it by absolute offset. */
module Scrollback {
  import opened Terminal

  const DEFAULT_MAX := 256 * 1024

  function Capacity(max: int): (c: nat)
    ensures c >= 1
  {
    if max <= 0 then DEFAULT_MAX else max
  }

  /** The last `k` bytes of a log, or all of it. */
  function Tail(log: seq<byte>, k: nat): (t: seq<byte>)
    ensures |t| <= k && |t| <= |log|
    ensures |log| <= k ==> t == log
  {
    if |log| <= k then log else log[|log| - k..]
  }

  lemma TailIs(log: seq<byte>, k: nat)
    ensures var t := Tail(log, k); |t| == (if |log| <= k then |log| else k) && t == log[|log| - |t|..]
  {
  }

  /** The tail of a longer log, from the tail before. */
  lemma TailAppend(log: seq<byte>, p: seq<byte>, k: nat)
    ensures |p| > k ==> Tail(log + p, k) == p[|p| - k..]
    ensures |p| <= k ==> Tail(log + p, k) == Tail(Tail(log, k) + p, k)
  {
    var whole, t := log + p, Tail(log, k) + p;
    if |p| > k {
      assert whole[|whole| - k..] == p[|p| - k..];
    } else if |log| > k {
      assert t == whole[|log| - k..];
    }
  }

  /** What one locked look at the buffer tells a reader. */
  datatype Look = Data(data: seq<byte>, next: nat) | Eof(at: int) | Wait(at: int)

  /** The locked section of ReadFrom, in terms of the log: a cursor that fell behind the retained
      tail is moved up to it, then everything from the cursor on is returned. */
  function LookAt(log: seq<byte>, max: nat, closed: bool, cursor: int): (r: Look)
    ensures r.Data? ==> cursor < |log|
    ensures max >= 1 && cursor < |log| ==> log == [] || r.Data?
    ensures r.Data? ==> r.next == |log| && 0 < |r.data| <= |log| && r.data == log[|log| - |r.data|..]
    ensures r.Data? ==> |log| - |r.data| == Max(cursor, |log| - |Tail(log, max)|)
    ensures !r.Data? ==> r.at >= |log| && r.at >= cursor && (r.Eof? <==> closed)
    ensures !r.Data? ==> r.at == Max(cursor, |log| - |Tail(log, max)|)
  {
    var start := |log| - |Tail(log, max)|;
    var c := Max(cursor, start);
    if c < |log| then Data(log[c..], |log|)
    else if closed then Eof(c)
    else Wait(c)
  }

  function Max(a: int, b: int): int { if a < b then b else a }

  class Scrollback {
    var buf: seq<byte>
    const max: nat
    var start: nat
    var closed: bool
    /** The broadcast channel, as a number: a fresh one at every Write and Close. */
    var wait: nat
    /** Everything ever written. */
    ghost var log: seq<byte>

    /** The buffer is exactly the retained tail of the log, and offsets are absolute. */
    ghost predicate Valid()
      reads this
    {
      && max >= 1
      && buf == Tail(log, max)
      && start + |buf| == |log|
    }

    /** 256 KiB unless a positive capacity is given. */
    constructor (max: int)
      ensures Valid() && log == [] && !closed && this.max == Capacity(max)
      ensures this.max == if max <= 0 then 262144 else max
    {
      this.max := Capacity(max);
      buf, start, closed, wait, log := [], 0, false, 0, [];
    }

    /** Preloaded data replays first. */
    constructor WithData(max: int, data: seq<byte>)
      ensures Valid() && log == data && !closed && this.max == Capacity(max)
      ensures this.max == if max <= 0 then 262144 else max
      ensures |buf| == (if |data| <= this.max then |data| else this.max) && buf == data[|data| - |buf|..]
    {
      this.max := Capacity(max);
      buf, start, closed, wait, log := [], 0, false, 0, [];
      new;
      if |data| > 0 {
        var w := Write(data);
      }
    }

    /** Appending evicts the oldest bytes and nothing else: all of the log stays, or its last `max` bytes. `w` is
        the channel to close. */
    method Write(p: seq<byte>) returns (w: nat)
      requires Valid()
      modifies this`buf, this`start, this`wait, this`log
      ensures Valid() && log == old(log) + p
      ensures |buf| == (if |log| <= max then |log| else max) && buf == log[|log| - |buf|..]
      ensures w == old(wait) && wait == old(wait) + 1
    {
      hide Tail;
      TailAppend(log, p, max);
      TailIs(log + p, max);
      TailIs(buf + p, max);
      var q := p;
      if |q| > max {
        var drop := |q| - max;
        q := q[drop..];
        start := start + |buf| + drop;
        buf := [];
        assert [] + q == q;
      }
      buf := buf + q;
      if |buf| > max {
        var drop := |buf| - max;
        buf := buf[drop..];
        start := start + drop;
      }
      assert buf == Tail(log + p, max);
      log := log + p;
      w := wait;
      wait := wait + 1;
    }

    method Close() returns (w: nat)
      requires Valid()
      modifies this`closed, this`wait
      ensures Valid() && closed
      ensures w == old(wait) && wait == old(wait) + 1
    {
      closed := true;
      w := wait;
      wait := wait + 1;
    }

    method Oldest() returns (v: nat)
      requires Valid()
      ensures v == if |log| <= max then 0 else |log| - max
    {
      v := start;
    }

    method Snapshot() returns (out: seq<byte>)
      requires Valid()
      ensures |out| == (if |log| <= max then |log| else max) && out == log[|log| - |out|..]
    {
      out := buf;
    }

    /** One locked section of ReadFrom: either an answer, or the cursor to wait with. */
    method ReadLocked(cursor: int) returns (r: Look)
      requires Valid()
      ensures r == LookAt(log, max, closed, cursor)
      ensures var oldest := if |log| <= max then 0 else |log| - max;
              var from := if cursor < oldest then oldest else cursor;
              r == if from < |log| then Data(log[from..], |log|) else if closed then Eof(from) else Wait(from)
    {
      var end := start + |buf|;
      var c := cursor;
      if c < start {
        c := start;
      }
      if c < end {
        assert buf[c - start..] == log[c..];
        return Data(buf[c - start..], end);
      }
      if closed {
        return Eof(c);
      }
      return Wait(c);
    }
  }
}
