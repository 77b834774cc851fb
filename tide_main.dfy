/**
 * The bounded copy of the earlier Tide server: `copy_limit` pumps a
 * buffered reader into a writer, counting the bytes the writer accepts, and
 * stops with `Truncated` once the count passes the limit. Also the limit it
 * is given for an upload.
 */
module TideMain {
  import opened Wrappers
  import opened Ints

  newtype byte = x: int | 0 <= x < 256

  /** `async_std::io::BufReader`'s default capacity. */
  const DEFAULT_BUF_SIZE: nat := 8 * 1024

  /**
   * A `BufReader` over a finite input: `input[pos..filled]` is the buffered,
   * unconsumed window. A refill happens only once the window is used up, and
   * the inner reader is taken to fill the whole capacity when it can.
   */
  class BufReader {
    const input: seq<byte>
    const capacity: nat
    var pos: nat
    var filled: nat

    ghost predicate Valid()
      reads this
    {
      0 < capacity && pos <= filled <= |input|
    }

    constructor (input: seq<byte>, capacity: nat)
      requires 0 < capacity
      ensures Valid() && this.input == input && this.capacity == capacity && pos == 0 && filled == 0
    {
      this.input := input;
      this.capacity := capacity;
      pos := 0;
      filled := 0;
    }

    /** `poll_fill_buf`: the next unconsumed bytes, empty only at end of input. */
    method FillBuf() returns (buf: seq<byte>)
      requires Valid()
      modifies this
      ensures Valid() && pos == old(pos)
      ensures filled == if old(pos) == old(filled) then Min(pos + capacity, |input|) else old(filled)
      ensures buf == input[pos..filled]
      ensures |buf| == 0 <==> pos == |input|
    {
      if pos == filled {
        filled := Min(pos + capacity, |input|);
      }
      buf := input[pos..filled];
    }

    /** `consume`: mark `i` buffered bytes as read. */
    method Consume(i: nat)
      requires Valid() && pos + i <= filled
      modifies this
      ensures Valid() && pos == old(pos) + i && filled == old(filled)
    {
      pos := pos + i;
    }
  }

  function Min(a: int, b: int): (m: int)
    ensures m <= a && m <= b && (m == a || m == b)
  {
    if a <= b then a else b
  }

  /** What the writer does on its next `poll_write`: accept at most `max` bytes, or fail. */
  datatype WriteStep = Accept(max: nat) | Fail

  /**
   * How many bytes of a buffer of `len` the next write under `plan` accepts,
   * or that it fails; once the plan runs out a write takes the whole buffer.
   */
  function PlannedWrite(plan: seq<WriteStep>, len: nat): (r: Result<nat, ()>)
    ensures r.Ok? ==> r.value <= len
    ensures r.Err? <==> plan != [] && plan[0] == Fail
    ensures r.Ok? ==> (r.value == 0 <==> len == 0 || (plan != [] && plan[0] == Accept(0)))
  {
    if plan == [] then Ok(len)
    else match plan[0]
      case Fail => Err(())
      case Accept(max) => Ok(Min(max, len))
  }

  /**
   * The destination: the bytes it holds, the outcome of its coming writes
   * (once the plan runs out it accepts whole buffers) and whether its flush
   * fails.
   */
  class Sink {
    var contents: seq<byte>
    var plan: seq<WriteStep>
    const flushFails: bool

    constructor (plan: seq<WriteStep>, flushFails: bool)
      ensures contents == [] && this.plan == plan && this.flushFails == flushFails
    {
      contents := [];
      this.plan := plan;
      this.flushFails := flushFails;
    }

    /** `poll_write`: take a prefix of `buf`. */
    method Write(buf: seq<byte>) returns (r: Result<nat, ()>)
      modifies this
      ensures r == PlannedWrite(old(plan), |buf|)
      ensures r.Ok? ==> r.value <= |buf|
      ensures contents == if r.Ok? then old(contents) + buf[..r.value] else old(contents)
      ensures plan == if old(plan) == [] then [] else old(plan)[1..]
    {
      r := PlannedWrite(plan, |buf|);
      if plan != [] {
        plan := plan[1..];
      }
      if r.Ok? {
        contents := contents + buf[..r.value];
      }
    }

    /** `poll_flush`. */
    method Flush() returns (r: Result<(), ()>)
      ensures r.Err? <==> flushFails
    {
      r := if flushFails then Err(()) else Ok(());
    }
  }

  datatype CopyResult = Copied(n: nat) | Truncated

  /** The errors `copy_limit` returns: a write that took nothing, or a failing write or flush. */
  datatype CopyError = WriteZero | WriteError | FlushError

  /** How a copy ends: its outcome and the number of bytes the writer accepted. */
  datatype CopyEnd = CopyEnd(r: Result<CopyResult, CopyError>, amt: nat)

  /** One turn of the copy loop either ends the copy or leaves a new reader position, window end and plan. */
  datatype CopyTurn = Done(end: CopyEnd) | Next(pos: nat, filled: nat, plan: seq<WriteStep>)

  /**
   * One turn of the copy loop from a reader at `pos` with window end
   * `filled`, having accepted `pos` bytes so far: fill the buffer (refilling a
   * used-up window to the capacity), flush at end of input, otherwise write,
   * fail on an error or on a write of zero bytes, stop with `Truncated` once
   * the count passes `limit`, and consume what was written.
   */
  function CopyStep(input: seq<byte>, pos: nat, filled: nat, plan: seq<WriteStep>, flushFails: bool, limit: nat): (t: CopyTurn)
    requires pos <= filled <= |input|
    ensures t.Next? ==> pos < t.pos <= t.filled <= |input| && t.pos <= limit
    ensures t.Next? ==> t.filled == if pos == filled then Min(pos + DEFAULT_BUF_SIZE, |input|) else filled
    ensures t.Next? ==> t.plan == if plan == [] then [] else plan[1..]
    ensures t.Done? ==> pos <= t.end.amt <= |input|
    ensures t.Done? && t.end.r.Ok? && t.end.r.value.Copied? ==> t.end.r.value.n == t.end.amt == pos == |input|
    ensures t.Done? && t.end.r == Ok(Truncated) ==>
      limit < t.end.amt <= (if pos == filled then pos + DEFAULT_BUF_SIZE else filled)
    ensures t.Done? && t.end.r == Err(FlushError) ==> flushFails && pos == |input|
    ensures t.Done? && t.end.r == Err(WriteError) ==> t.end.amt == pos && plan != [] && plan[0] == Fail
    ensures t.Done? && t.end.r == Err(WriteZero) ==> t.end.amt == pos && plan != [] && plan[0] == Accept(0)
  {
    var f := if pos == filled then Min(pos + DEFAULT_BUF_SIZE, |input|) else filled;
    if f == pos then
      if flushFails then Done(CopyEnd(Err(FlushError), pos)) else Done(CopyEnd(Ok(Copied(pos)), pos))
    else
      var written := PlannedWrite(plan, f - pos);
      if written.Err? then Done(CopyEnd(Err(WriteError), pos))
      else if written.value == 0 then Done(CopyEnd(Err(WriteZero), pos))
      else if pos + written.value > limit then Done(CopyEnd(Ok(Truncated), pos + written.value))
      else Next(pos + written.value, f, if plan == [] then [] else plan[1..])
  }

  /** The copy loop: turns until one ends the copy. */
  function CopyFrom(input: seq<byte>, pos: nat, filled: nat, plan: seq<WriteStep>, flushFails: bool, limit: nat): CopyEnd
    requires pos <= filled <= |input|
    decreases |input| - pos
  {
    match CopyStep(input, pos, filled, plan, flushFails, limit)
    case Done(e) => e
    case Next(p, f, rest) => CopyFrom(input, p, f, rest, flushFails, limit)
  }

  /**
   * What a copy from the start promises: `Copied(n)` only at end of input with
   * `n` every byte and at most `limit`; `Truncated` exactly when the input is
   * longer than `limit`, at the first write that passes it, so by less than a
   * buffer; a flush error only after every byte; a write error or a zero-byte
   * write only before the limit was passed.
   */
  lemma {:induction false} CopyFromFacts(input: seq<byte>, pos: nat, filled: nat, plan: seq<WriteStep>, flushFails: bool, limit: nat)
    requires pos <= filled <= |input| && filled <= pos + DEFAULT_BUF_SIZE && pos <= limit
    ensures var e := CopyFrom(input, pos, filled, plan, flushFails, limit);
      pos <= e.amt <= |input| &&
      (e.r.Ok? && e.r.value.Copied? ==> e.r.value.n == e.amt == |input| && e.amt <= limit) &&
      (e.r == Ok(Truncated) ==> limit < e.amt <= limit + DEFAULT_BUF_SIZE) &&
      (e.r.Ok? ==> (e.r.value.Truncated? <==> |input| > limit)) &&
      (e.r == Err(FlushError) ==> flushFails && e.amt == |input|) &&
      (e.r == Err(WriteError) || e.r == Err(WriteZero) ==> e.amt <= limit)
    decreases |input| - pos
  {
    match CopyStep(input, pos, filled, plan, flushFails, limit)
    case Done(_) =>
    case Next(p, f, rest) =>
      CopyFromFacts(input, p, f, rest, flushFails, limit);
  }

  /** A write error comes only from a planned failing write, a zero-byte write only from a planned `Accept(0)`. */
  lemma {:induction false} CopyFromErrorsArePlanned(input: seq<byte>, pos: nat, filled: nat, plan: seq<WriteStep>, flushFails: bool, limit: nat)
    requires pos <= filled <= |input|
    ensures var e := CopyFrom(input, pos, filled, plan, flushFails, limit);
      (e.r == Err(WriteError) ==> Fail in plan) &&
      (e.r == Err(WriteZero) ==> Accept(0) in plan) &&
      (e.r == Err(FlushError) ==> flushFails) &&
      (Fail !in plan && Accept(0) !in plan && !flushFails ==> e.r.Ok?)
    decreases |input| - pos
  {
    match CopyStep(input, pos, filled, plan, flushFails, limit)
    case Done(_) =>
    case Next(p, f, rest) =>
      CopyFromErrorsArePlanned(input, p, f, rest, flushFails, limit);
      assert forall w :: w in rest ==> w in plan;
  }

  /** A planned `Accept(0)` reached with input left is answered with `WriteZero`, nothing more accepted. */
  lemma CopyFromZeroWrite(input: seq<byte>, pos: nat, filled: nat, rest: seq<WriteStep>, flushFails: bool, limit: nat)
    requires pos <= filled <= |input| && pos < |input|
    ensures CopyFrom(input, pos, filled, [Accept(0)] + rest, flushFails, limit) == CopyEnd(Err(WriteZero), pos)
  {
  }

  /**
   * One turn of `poll`'s loop: it does what `CopyStep` says from the reader's
   * and writer's state, and the writer gains exactly the bytes it accepted.
   */
  method PollOnce(reader: BufReader, writer: Sink, limit: nat) returns (done: Option<CopyEnd>)
    requires reader.Valid() && reader.capacity == DEFAULT_BUF_SIZE
    modifies reader, writer
    ensures reader.Valid() && reader.capacity == DEFAULT_BUF_SIZE
    ensures var t := old(CopyStep(reader.input, reader.pos, reader.filled, writer.plan, writer.flushFails, limit));
      match t
      case Done(e) => (done == Some(e) && writer.contents == old(writer.contents) + reader.input[old(reader.pos)..e.amt])
      case Next(p, f, rest) => (done == None && reader.pos == p && reader.filled == f && writer.plan == rest &&
        writer.contents == old(writer.contents) + reader.input[old(reader.pos)..p])
  {
    var copied := reader.pos;
    var buffer := reader.FillBuf();
    if |buffer| == 0 {
      var flushed := writer.Flush();
      if flushed.Err? {
        return Some(CopyEnd(Err(FlushError), copied));
      }
      return Some(CopyEnd(Ok(Copied(copied)), copied));
    }
    var written := writer.Write(buffer);
    if written.Err? {
      return Some(CopyEnd(Err(WriteError), copied));
    }
    var i := written.value;
    if i == 0 {
      return Some(CopyEnd(Err(WriteZero), copied));
    }
    assert buffer[..i] == reader.input[copied..copied + i];
    if copied + i > limit {
      return Some(CopyEnd(Ok(Truncated), copied + i));
    }
    reader.Consume(i);
    return None;
  }

  /**
   * `CopyFuture::poll` driven to completion over a fresh `BufReader`: its
   * outcome and the bytes accepted are those of the copy loop, and the writer
   * ends up holding exactly the first `amt` input bytes.
   */
  method Poll(reader: BufReader, writer: Sink, limit: nat) returns (r: Result<CopyResult, CopyError>, ghost amt: nat)
    requires reader.Valid() && reader.capacity == DEFAULT_BUF_SIZE && reader.pos == 0 && reader.filled == 0
    modifies reader, writer
    ensures CopyEnd(r, amt) == CopyFrom(reader.input, 0, 0, old(writer.plan), writer.flushFails, limit)
    ensures amt <= |reader.input|
    ensures writer.contents == old(writer.contents) + reader.input[..amt]
  {
    ghost var input := reader.input;
    ghost var outcome := CopyFrom(input, 0, 0, writer.plan, writer.flushFails, limit);
    while true
      invariant reader.Valid() && reader.input == input && reader.capacity == DEFAULT_BUF_SIZE
      invariant writer.contents == old(writer.contents) + input[..reader.pos]
      invariant CopyFrom(input, reader.pos, reader.filled, writer.plan, writer.flushFails, limit) == outcome
      decreases |input| - reader.pos
    {
      ghost var pos := reader.pos;
      var done := PollOnce(reader, writer, limit);
      if done.Some? {
        assert input[..pos] + input[pos..done.value.amt] == input[..done.value.amt];
        return done.value.r, done.value.amt;
      }
      assert input[..pos] + input[pos..reader.pos] == input[..reader.pos];
    }
  }

  /**
   * `copy_limit`: the copy loop over a fresh reader, so `Copied(n)` comes only
   * at end of input with `n` every byte and at most `limit`; `Truncated` comes
   * exactly when the input is longer than `limit`, at the first write that
   * passes it; the writer holds exactly the bytes it accepted.
   */
  method CopyLimit(input: seq<byte>, writer: Sink, limit: nat) returns (r: Result<CopyResult, CopyError>, ghost amt: nat)
    modifies writer
    ensures CopyEnd(r, amt) == CopyFrom(input, 0, 0, old(writer.plan), writer.flushFails, limit)
    ensures amt <= |input|
    ensures writer.contents == old(writer.contents) + input[..amt]
    ensures r.Ok? && r.value.Copied? ==> r.value.n == amt == |input| && amt <= limit
    ensures r == Ok(Truncated) ==> limit < amt <= limit + DEFAULT_BUF_SIZE
    ensures r.Ok? ==> (r.value.Truncated? <==> |input| > limit)
    ensures r == Err(FlushError) ==> writer.flushFails && amt == |input|
    ensures r == Err(WriteError) ==> Fail in old(writer.plan) && amt <= limit
    ensures r == Err(WriteZero) ==> Accept(0) in old(writer.plan) && amt <= limit
    ensures old(writer.plan) == [] && !writer.flushFails ==>
      r == if |input| > limit then Ok(Truncated) else Ok(Copied(|input|))
  {
    CopyFromFacts(input, 0, 0, writer.plan, writer.flushFails, limit);
    CopyFromErrorsArePlanned(input, 0, 0, writer.plan, writer.flushFails, limit);
    var reader := new BufReader(input, DEFAULT_BUF_SIZE);
    r, amt := Poll(reader, writer, limit);
  }

  /**
   * The limit `upload_files` passes: one MiB more than the token's size for
   * the multipart boundaries, computed as `(s + 1) as u64 * 1024 * 1024` on an
   * i32 with wrapping arithmetic, or `u64::MAX` without a size.
   */
  function UploadLimit(maxSizeInMb: Option<int>): (r: int)
    ensures 0 <= r <= U64_MAX
    ensures maxSizeInMb.None? ==> r == U64_MAX
  {
    match maxSizeInMb
    case None => U64_MAX
    case Some(s) => WrapU64(WrapU64(WrapI32(s + 1)) * 1024 * 1024)
  }

  /** Without overflow the limit is the size plus one, in bytes. */
  lemma UploadLimitExact(s: int)
    requires -1 <= s < I32_MAX
    ensures UploadLimit(Some(s)) == (s + 1) * 1024 * 1024
  {
    assert 0 <= (s + 1) * 1024 * 1024 <= U64_MAX;
  }

  /** Every size the form offers (at most 5 GiB) gets its exact limit. */
  lemma UploadLimitForFormSizes()
    ensures UploadLimit(Some(1)) == 2 * 1024 * 1024
    ensures UploadLimit(Some(5 * 1024)) == 5121 * 1024 * 1024
  {
    UploadLimitExact(1);
    UploadLimitExact(5 * 1024);
  }

  /** At `i32::MAX` the `+ 1` wraps to `i32::MIN`, which sign-extends to a huge u64 before the multiplication. */
  lemma UploadLimitWrapsAtI32Max()
    ensures UploadLimit(Some(I32_MAX)) == TWO_POW_64 - 0x8_0000_0000_0000
  {
    assert WrapI32(I32_MAX + 1) == I32_MIN;
    assert WrapU64(I32_MIN) == TWO_POW_64 - 0x8000_0000;
    assert (TWO_POW_64 - 0x8000_0000) * 1024 * 1024 == 0x10_0000 * TWO_POW_64 - 0x8_0000_0000_0000;
  }
}
