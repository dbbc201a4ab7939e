// A connection that is checked for life by reading ahead, without disturbing its bytes.
module ConnCheckers {
  import opened Basics

  const CHECK_DURATION := 1
  const INITIAL_SIZE := 2 * 1024
  const MAXIMUM_SIZE := 32 * 1024
  const GROW_THRESHOLD := 5000

  datatype Error = NoError | DeadlineExceeded | FullBuffer | Closed | Other(code: int)

  /** A buffered reader.  It reads from the connection, or first what a full smaller reader holds:
      at most `limit` bytes of it. */
  datatype Reader = Reader(size: nat, buffer: bytes, error: Error, source: Source)
  datatype Source = Connection | Chained(earlier: Reader, limit: nat)

  predicate Full(r: Reader) { |r.buffer| == r.size }

  predicate Drained(r: Reader) { r.source.Chained? ==> r.source.limit == 0 }

  /** 2 KiB times a power of two, up to 32 KiB. */
  predicate Doubled(size: nat) { size in {2048, 4096, 8192, 16384, 32768} }

  predicate Sound(r: Reader) {
    && Doubled(r.size) && |r.buffer| <= r.size
    && match r.source
       case Connection => r.size == INITIAL_SIZE
       case Chained(earlier, limit) =>
         && Sound(earlier) && Drained(earlier) && r.size == 2 * earlier.size
         && |earlier.buffer| == limit
         && (limit > 0 ==> |r.buffer| + limit <= earlier.size)
  }

  /** What a reader reads before it reads from the connection. */
  function Ahead(r: Reader): bytes {
    if r.source.Chained? then r.source.earlier.buffer else []
  }

  /** Whatever a full reader was chained to has been used up. */
  lemma FullIsDrained(r: Reader)
    requires Sound(r) && Full(r)
    ensures Drained(r) && Ahead(r) == []
  {
  }

  function Grown(r: Reader): Reader {
    Reader(2 * r.size, [], NoError, Chained(r, r.size))
  }

  /** Growing moves no byte; it would lose bytes if the earlier reader were not used up. */
  lemma GrownHolds(r: Reader)
    requires Sound(r) && Full(r) && r.size < MAXIMUM_SIZE
    ensures Sound(Grown(r)) && Grown(r).buffer + Ahead(Grown(r)) == r.buffer + Ahead(r)
  {
    FullIsDrained(r);
  }

  /** The stream: what was returned, what a reader holds, what it reads ahead of the connection, and the rest. */
  predicate InOrder(returned: bytes, buffer: bytes, ahead: bytes, rest: bytes, stream: bytes) {
    returned + (buffer + ahead) + rest == stream
  }

  lemma AheadMoves(returned: bytes, buffer: bytes, ahead: bytes, rest: bytes, stream: bytes, k: nat)
    requires InOrder(returned, buffer, ahead, rest, stream) && k <= |ahead|
    ensures InOrder(returned, buffer + ahead[..k], ahead[k..], rest, stream)
  {
    assert buffer + ahead == buffer + ahead[..k] + ahead[k..];
  }

  lemma RestMoves(returned: bytes, buffer: bytes, rest: bytes, stream: bytes, k: nat)
    requires InOrder(returned, buffer, [], rest, stream) && k <= |rest|
    ensures InOrder(returned, buffer + rest[..k], [], rest[k..], stream)
  {
    assert returned + (buffer + []) + rest == returned + (buffer + rest[..k] + []) + rest[k..];
  }

  lemma BufferMoves(returned: bytes, buffer: bytes, ahead: bytes, rest: bytes, stream: bytes, k: nat)
    requires InOrder(returned, buffer, ahead, rest, stream) && k <= |buffer|
    ensures InOrder(returned + buffer[..k], buffer[k..], ahead, rest, stream)
    ensures returned + buffer[..k] <= stream
  {
    assert returned + (buffer + ahead) + rest == returned + buffer[..k] + (buffer[k..] + ahead) + rest;
    assert stream == returned + buffer[..k] + ((buffer[k..] + ahead) + rest);
  }

  /** As many bytes from the front as there are and as are asked for. */
  function Front(b: bytes, max: nat): bytes {
    if max < |b| then b[..max] else b
  }

  /** Taking bytes from the front of a reader that has nothing else to read first. */
  lemma Shortened(r: Reader, k: nat)
    requires Sound(r) && k <= |r.buffer|
    ensures Sound(r.(buffer := r.buffer[k..]))
  {
  }

  class ConnChecker {
    const stream: bytes
    var taken: nat
    var reader: Reader
    var deadline: int
    var connDeadline: int
    var growtime: Option<int>
    var stop: bool
    var ended: bool
    var cause: Error

    /** What the callers of Read have got. */
    ghost var returned: bytes

    /** No byte is lost, repeated or out of place. */
    ghost predicate Ordered()
      reads this
    {
      && taken <= |stream| && Sound(reader)
      && InOrder(returned, reader.buffer, Ahead(reader), stream[taken..], stream)
    }

    /** Outside of a check the connection has the deadline that its user has set. */
    ghost predicate Valid()
      reads this
    {
      Ordered() && deadline == connDeadline
    }

    constructor (stream: bytes)
      ensures Valid() && this.stream == stream && returned == [] && !stop && !ended && cause == NoError
      ensures deadline == 0
    {
      this.stream := stream;
      taken, reader := 0, Reader(INITIAL_SIZE, [], NoError, Connection);
      deadline, connDeadline, growtime := 0, 0, None;
      stop, ended, cause, returned := false, false, NoError, [];
    }

    /** The connection delivers some bytes, an error, or both. */
    method ReadConn(max: nat) returns (chunk: bytes, error: Error)
      requires taken <= |stream|
      modifies this`taken
      ensures |chunk| <= max && old(taken) <= taken <= |stream|
      ensures chunk == stream[old(taken)..taken]
    {
      var k :| 0 <= k <= max && taken + k <= |stream|;
      error := *;
      chunk := stream[taken..taken + k];
      taken := taken + k;
    }

    /** One read from what the reader reads from. */
    method ReadSource(max: nat) returns (chunk: bytes, error: Error)
      requires Ordered() && (|reader.buffer| + max <= reader.size || reader.buffer == [])
      modifies this`taken, this`reader
      ensures reader == old(reader).(source := reader.source) && |chunk| <= max
      ensures old(taken) <= taken <= |stream| && Sound(reader)
      ensures |reader.buffer| + |chunk| <= reader.size ==> Sound(reader.(buffer := reader.buffer + chunk))
      ensures InOrder(returned, reader.buffer + chunk, Ahead(reader), stream[taken..], stream)
      ensures max > 0 && old(Ahead(reader)) != [] ==> chunk != []
    {
      hide InOrder;
      if reader.source.Chained? && reader.source.limit > 0 {
        var s := reader.source;
        var k := if max < s.limit then max else s.limit;
        Shortened(s.earlier, k);
        AheadMoves(returned, reader.buffer, s.earlier.buffer, stream[taken..], stream, k);
        chunk, error := s.earlier.buffer[..k], NoError;
        reader := reader.(source := Chained(s.earlier.(buffer := s.earlier.buffer[k..]), s.limit - k));
      } else {
        ghost var rest := stream[taken..];
        chunk, error := ReadConn(max);
        assert rest[..|chunk|] == chunk && rest[|chunk|..] == stream[taken..] && Ahead(reader) == [];
        RestMoves(returned, reader.buffer, rest, stream, |chunk|);
      }
    }

    /** Adds what one read gives to the buffer; too many reads of nothing are an error. */
    method Fill()
      requires Ordered() && reader.error == NoError && !Full(reader)
      modifies this`taken, this`reader
      ensures Ordered() && reader.size == old(reader.size) && old(taken) <= taken
      ensures |reader.buffer| > |old(reader.buffer)| || (reader.error != NoError && reader.buffer == old(reader.buffer))
    {
      hide InOrder;
      var chunk, error := ReadSource(reader.size - |reader.buffer|);
      if chunk == [] && error == NoError { error := Other(100); }
      reader := reader.(buffer := reader.buffer + chunk, error := error);
    }

    /** Reads ahead until the buffer is full or there is an error. */
    method Peek() returns (error: Error)
      requires Ordered()
      modifies this`taken, this`reader
      ensures Ordered() && reader.size == old(reader.size) && old(taken) <= taken
      ensures error == NoError <==> Full(reader)
    {
      while !Full(reader) && reader.error == NoError
        invariant Ordered() && reader.size == old(reader.size) && old(taken) <= taken
        decreases reader.size - |reader.buffer|, reader.error == NoError
      {
        Fill();
      }
      if Full(reader) {
        return NoError;
      }
      error, reader := reader.error, reader.(error := NoError);
    }

    method TakeError() returns (error: Error)
      requires Ordered()
      modifies this`reader
      ensures Ordered() && error == old(reader.error) && reader == old(reader).(error := NoError)
    {
      error, reader := reader.error, reader.(error := NoError);
    }

    /** The buffer has been full for long enough. */
    predicate MayGrow(now: int)
      reads this
    {
      Full(reader) && reader.size < MAXIMUM_SIZE && growtime.Some? && growtime.value < now
    }

    /** One tick of the loop that checks the connection.  `peeked` is how reading ahead ended, which is tried
        unless the buffer is full already: anything but a deadline ends the check with that cause.  A buffer
        that is full gets a time to grow, and grows after it; one of the maximum size ends the check. */
    method Check(now: int) returns (ghost peeked: Error)
      requires Valid() && !ended
      modifies this
      ensures Valid() && returned == old(returned) && old(taken) <= taken
      ensures deadline == old(deadline)
      ensures old(stop) ==> ended && cause == old(cause) && reader == old(reader) && taken == old(taken)
      ensures old(Full(reader)) ==> peeked == NoError && taken == old(taken)
      ensures !old(stop) && !old(Full(reader)) ==> (peeked == NoError <==> Full(reader))
      ensures !old(stop) ==>
        (ended <==> peeked !in {NoError, DeadlineExceeded} || (Full(reader) && reader.size >= 32768))
      ensures !ended ==> cause == old(cause)
      ensures !old(stop) && ended && old(cause) == NoError ==>
        cause == if (Full(reader) && reader.size >= 32768) then FullBuffer else peeked
      ensures !old(stop) && old(MayGrow(now)) ==> reader == Grown(old(reader)) && growtime == None
      ensures !old(stop) && !old(MayGrow(now)) ==> reader.size == old(reader.size)
      ensures !old(stop) && !Full(reader) ==> growtime == None
      ensures !old(stop) && !old(MayGrow(now)) && Full(reader) && reader.size < 32768 ==>
        growtime == if old(Full(reader)) && old(growtime).Some? then old(growtime) else Some(now + 5000)
    {
      peeked := NoError;
      if stop {
        ended := true;
        return;
      }
      var error := NoError;
      if !Full(reader) {
        connDeadline := now + CHECK_DURATION;
        error := Peek();
        peeked := error;
        connDeadline := deadline;
        growtime := None;
      }
      if Full(reader) {
        if reader.size < MAXIMUM_SIZE {
          if growtime.None? {
            growtime := Some(now + GROW_THRESHOLD);
          } else if now > growtime.value {
            GrownHolds(reader);
            reader, growtime := Grown(reader), None;
          }
        } else {
          error := FullBuffer;
        }
      }
      if error != NoError && error != DeadlineExceeded {
        ended := true;
        Cancel(error);
      }
    }

    /** The first cause stays. */
    method Cancel(error: Error)
      modifies this`cause
      ensures cause == if old(cause) == NoError then error else old(cause)
    {
      if cause == NoError { cause := error; }
    }

    /** Up to `max` bytes, in the order of the stream, whatever was read ahead. */
    method Read(max: nat) returns (p: bytes, error: Error)
      requires Valid()
      modifies this`taken, this`reader, this`cause, this`returned
      ensures Valid() && |p| <= max && returned == old(returned) + p && returned <= stream
      ensures reader.size == old(reader.size)
      ensures max > 0 && old(reader.buffer) != [] ==> p == Front(old(reader.buffer), max) && error == NoError
      ensures max > 0 && old(reader.buffer) == [] && old(reader.error) != NoError ==>
        p == [] && error == old(reader.error)
      ensures max > 0 && old(reader.error) == NoError && old(Ahead(reader)) != [] ==> p != []
      ensures error != NoError && error != DeadlineExceeded ==> cause != NoError
      ensures error == NoError || error == DeadlineExceeded ==> cause == old(cause)
    {
      p, error := ReadBuffered(max);
      if error != NoError && error != DeadlineExceeded {
        Cancel(error);
      }
    }

    lemma Prefix()
      requires Ordered()
      ensures returned <= stream
    {
      assert stream == returned + (reader.buffer + Ahead(reader) + stream[taken..]);
    }

    method ReadBuffered(max: nat) returns (p: bytes, error: Error)
      requires Ordered()
      modifies this`taken, this`reader, this`returned
      ensures Ordered() && |p| <= max && returned == old(returned) + p && returned <= stream
      ensures reader.size == old(reader.size)
      ensures max > 0 && old(reader.buffer) != [] ==> p == Front(old(reader.buffer), max) && error == NoError
      ensures max > 0 && old(reader.buffer) == [] && old(reader.error) != NoError ==>
        p == [] && error == old(reader.error)
      ensures max > 0 && old(reader.error) == NoError && old(Ahead(reader)) != [] ==> p != []
    {
      p := [];
      Prefix();
      hide InOrder;
      if max == 0 {
        error := NoError;
        if reader.buffer == [] { error := TakeError(); }
        return;
      }
      if reader.buffer == [] {
        if reader.error != NoError {
          error := TakeError();
          return;
        }
        if max >= reader.size {
          p, error := ReadThrough(max);
          return;
        }
        Refill();
        if reader.buffer == [] {
          error := TakeError();
          return;
        }
      }
      error := NoError;
      p := Copy(max);
    }

    /** A large read skips the buffer. */
    method ReadThrough(max: nat) returns (p: bytes, error: Error)
      requires Ordered() && reader.buffer == []
      modifies this`taken, this`reader, this`returned
      ensures Ordered() && |p| <= max && returned == old(returned) + p && returned <= stream
      ensures reader.size == old(reader.size)
      ensures max > 0 && old(Ahead(reader)) != [] ==> p != []
    {
      p, error := ReadSource(max);
      assert reader.buffer + p == p && p[..|p|] == p && p[|p|..] == [];
      BufferMoves(returned, p, Ahead(reader), stream[taken..], stream, |p|);
      returned := returned + p;
    }

    method Refill()
      requires Ordered() && reader.buffer == [] && reader.error == NoError
      modifies this`taken, this`reader
      ensures Ordered() && reader.size == old(reader.size)
      ensures old(Ahead(reader)) != [] ==> reader.buffer != []
    {
      var chunk, error := ReadSource(reader.size);
      assert reader.buffer + chunk == chunk;
      reader := reader.(buffer := chunk, error := error);
    }

    /** Hands out bytes of the buffer. */
    method Copy(max: nat) returns (p: bytes)
      requires Ordered()
      modifies this`reader, this`returned
      ensures Ordered() && |p| <= max && returned == old(returned) + p && returned <= stream
      ensures reader.size == old(reader.size) && p == Front(old(reader.buffer), max)
    {
      var n := if max < |reader.buffer| then max else |reader.buffer|;
      p := reader.buffer[..n];
      Shortened(reader, n);
      BufferMoves(returned, reader.buffer, Ahead(reader), stream[taken..], stream, n);
      hide InOrder;
      reader := reader.(buffer := reader.buffer[n..]);
      returned := returned + p;
    }

    method SetReadDeadline(t: int)
      requires Valid()
      modifies this`deadline, this`connDeadline
      ensures Valid() && deadline == t
    {
      deadline, connDeadline := t, t;
    }

    method Stop()
      modifies this`stop
      ensures stop
    {
      stop := true;
    }

    method Close()
      modifies this`cause
      ensures cause == if old(cause) == NoError then Closed else old(cause)
    {
      Cancel(Closed);
    }
  }
}
