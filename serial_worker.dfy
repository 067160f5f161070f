/**
 * The serial worker: the reader loop that turns each chunk read from the port
 * into one queue line `"<ms>--<hex>"`, and the handle that stops it once.
 *
 * The asynchronous `select!` between a read and the shutdown channel is
 * abstracted as the sequence of events the loop observes.
 */
module SerialWorker {
  import opened Wrappers
  import opened Bytes
  import opened Decimal
  import opened Hex

  /** Size of the reader's buffer `buf`: no read returns more bytes. */
  const BufferSize: nat := 128

  /** The bytes of one read, `buf[..n]`. */
  type Chunk = s: seq<byte> | |s| <= BufferSize

  /** What wins one round of the reader's `select!`. */
  datatype Event =
    | Read(chunk: Chunk, millis: nat)   // `Ok(n)` with the clock reading in milliseconds
    | ReadError                         // `Err(e)`: logged, the loop goes on
    | Shutdown                          // a message on the shutdown channel

  /**
   * `format!("{}--{}", sys_time, content)` where `sys_time` is `millis as u64`:
   * the run of digits at the front of the line is exactly the time stamp.
   */
  function Entry(millis: nat, content: string): (r: string)
    ensures LeadingDigits(r) == |DecimalString(millis % U64Modulus)|
  {
    var d := DecimalString(millis % U64Modulus);
    LeadingDigitsOfPrefix(d, "--" + content);
    assert d + "--" + content == d + ("--" + content);
    d + "--" + content
  }

  /** The line one read of `chunk` at `millis` puts on the queue (it reads back: `ParseReadLine`). */
  function ReadLine(chunk: Chunk, millis: nat): string
  {
    Entry(millis, FormatChunk(chunk))
  }

  /** Splits a queue line into its time stamp and the bytes it displays. */
  function ParseEntry(line: string): Option<(nat, seq<byte>)>
  {
    var p := LeadingDigits(line);
    if p == 0 || p + 2 > |line| || line[p..p + 2] != "--" then None
    else match ParseDisplay(line[p + 2..])
      case None => None
      case Some(bs) => Some((ParseDecimal(line[..p]), bs))
  }

  /** A queue line gives back the (truncated) time stamp and exactly the bytes read. */
  lemma ParseReadLine(chunk: Chunk, millis: nat)
    ensures ParseEntry(ReadLine(chunk, millis)) == Some((millis % U64Modulus, chunk))
  {
    var d := DecimalString(millis % U64Modulus);
    var f := FormatChunk(chunk);
    var line := ReadLine(chunk, millis);
    assert line == d + ("--" + f);
    LeadingDigitsOfPrefix(d, "--" + f);
    assert line[|d|..|d| + 2] == "--" && line[|d| + 2..] == f;
    ParseFormatChunk(chunk);
    ParseDecimalString(millis % U64Modulus);
  }

  // ----- the reader loop as a fold over its events -----

  /** No shutdown among `events`: the loop is still running after them. */
  predicate Running(events: seq<Event>)
  {
    forall i :: 0 <= i < |events| ==> !events[i].Shutdown?
  }

  /** The lines the reader appends while it observes `events`: at most one per event. */
  function Appended(events: seq<Event>): (r: seq<string>)
    ensures |r| <= |events|
  {
    if events == [] then []
    else match events[0]
      case Read(chunk, millis) => [ReadLine(chunk, millis)] + Appended(events[1..])
      case ReadError => Appended(events[1..])
      case Shutdown => []
  }

  /** While the loop runs, the lines of consecutive stretches of events are appended in order. */
  lemma {:induction false} AppendedConcat(a: seq<Event>, b: seq<Event>)
    requires Running(a)
    ensures Appended(a + b) == Appended(a) + Appended(b)
    decreases |a|
  {
    if a == [] {
      assert a + b == b;
    } else {
      assert (a + b)[0] == a[0] && !a[0].Shutdown?;
      assert (a + b)[1..] == a[1..] + b;
      AppendedConcat(a[1..], b);
    }
  }

  /** A successful read appends exactly one line, at the back, whatever the chunk's length. */
  lemma ReadAppendsOneLine(a: seq<Event>, chunk: Chunk, millis: nat)
    requires Running(a)
    ensures Appended(a + [Read(chunk, millis)]) == Appended(a) + [ReadLine(chunk, millis)]
  {
    AppendedConcat(a, [Read(chunk, millis)]);
  }

  /** A read error appends nothing and the loop carries on with the next event. */
  lemma {:induction false} ReadErrorAppendsNothing(a: seq<Event>, b: seq<Event>)
    ensures Appended(a + [ReadError] + b) == Appended(a + b)
    decreases |a|
  {
    if a == [] {
      assert a + [ReadError] + b == [ReadError] + b && a + b == b;
    } else {
      assert (a + [ReadError] + b)[0] == a[0] == (a + b)[0];
      assert (a + [ReadError] + b)[1..] == a[1..] + [ReadError] + b;
      assert (a + b)[1..] == a[1..] + b;
      ReadErrorAppendsNothing(a[1..], b);
    }
  }

  /** The first shutdown ends the loop: nothing that follows it is appended. */
  lemma ShutdownEndsLoop(a: seq<Event>, b: seq<Event>)
    requires Running(a)
    ensures Appended(a + [Shutdown] + b) == Appended(a)
  {
    AppendedConcat(a, [Shutdown] + b);
    assert a + [Shutdown] + b == a + ([Shutdown] + b);
  }

  /** The successful reads the loop handles, in order: those before the first shutdown. */
  function ReadsBeforeShutdown(events: seq<Event>): seq<(Chunk, nat)>
  {
    if events == [] || events[0].Shutdown? then []
    else if events[0].ReadError? then ReadsBeforeShutdown(events[1..])
    else [(events[0].chunk, events[0].millis)] + ReadsBeforeShutdown(events[1..])
  }

  /**
   * The queue lines decode, one for one and in order, to the time stamps and
   * bytes of the reads before the first shutdown.
   */
  lemma {:induction false} AppendedDecodesToReads(events: seq<Event>)
    ensures |Appended(events)| == |ReadsBeforeShutdown(events)|
    ensures forall k :: 0 <= k < |Appended(events)| ==>
      ParseEntry(Appended(events)[k])
        == Some((ReadsBeforeShutdown(events)[k].1 % U64Modulus, ReadsBeforeShutdown(events)[k].0))
    decreases |events|
  {
    if events != [] && !events[0].Shutdown? {
      AppendedDecodesToReads(events[1..]);
      if events[0].Read? {
        ParseReadLine(events[0].chunk, events[0].millis);
      }
    }
  }

  /** One more event that is not a shutdown: the loop keeps running, and a read adds its line. */
  lemma AppendedStep(events: seq<Event>, taken: nat)
    requires taken < |events| && Running(events[..taken]) && !events[taken].Shutdown?
    ensures Running(events[..taken + 1])
    ensures Appended(events[..taken + 1]) == Appended(events[..taken])
      + (if events[taken].Read? then [ReadLine(events[taken].chunk, events[taken].millis)] else [])
  {
    assert events[..taken + 1] == events[..taken] + [events[taken]];
    match events[taken] {
      case Read(chunk, millis) =>
        ReadAppendsOneLine(events[..taken], chunk, millis);
      case ReadError =>
        ReadErrorAppendsNothing(events[..taken], []);
        assert events[..taken] + [ReadError] + [] == events[..taken + 1];
        assert events[..taken] + [] == events[..taken];
    }
  }

  /** At the first shutdown the loop's output is complete: the rest of the events add nothing. */
  lemma AppendedAtShutdown(events: seq<Event>, taken: nat)
    requires taken < |events| && Running(events[..taken]) && events[taken].Shutdown?
    ensures Appended(events) == Appended(events[..taken])
  {
    SplitAtShutdown(events, taken);
    ShutdownEndsLoop(events[..taken], events[taken + 1..]);
  }

  lemma SplitAtShutdown(events: seq<Event>, taken: nat)
    requires taken < |events| && events[taken].Shutdown?
    ensures events == events[..taken] + [Shutdown] + events[taken + 1..]
  {
    assert events[taken] == Shutdown;
  }

  /** `DATA`: the shared queue of display lines. */
  class DataQueue {
    var lines: seq<string>

    constructor ()
      ensures lines == []
    {
      lines := [];
    }

    /** `push_back`: one line at the back, earlier lines untouched. */
    method PushBack(line: string)
      modifies this
      ensures lines == old(lines) + [line]
    {
      lines := lines + [line];
    }
  }

  /** `read` into the fixed buffer: the chunk lands in its first `|chunk|` cells. */
  method FillBuffer(buf: array<byte>, chunk: Chunk)
    requires buf.Length == BufferSize
    modifies buf
    ensures buf[..|chunk|] == chunk
  {
    for j := 0 to |chunk|
      invariant buf[..j] == chunk[..j]
    {
      buf[j] := chunk[j];
    }
  }

  /**
   * `Serial::read`: for each event, a read copies its bytes into `buf`, and the
   * line built from `buf[..n]` is pushed onto `data`; a read error is skipped;
   * a shutdown ends the loop. Returns how many events were handled
   * before the shutdown (all of them when none comes).
   */
  method ReadLoop(events: seq<Event>, data: DataQueue) returns (taken: nat)
    modifies data
    ensures data.lines == old(data.lines) + Appended(events)
    ensures taken <= |events| && Running(events[..taken])
    ensures taken < |events| ==> events[taken].Shutdown?
  {
    var buf := new byte[BufferSize](_ => 0);
    taken := 0;
    while taken < |events|
      invariant taken <= |events| && Running(events[..taken])
      invariant data.lines == old(data.lines) + Appended(events[..taken])
    {
      match events[taken] {
        case Read(chunk, millis) =>
          FillBuffer(buf, chunk);
          var line := Entry(millis, FormatChunk(buf[..|chunk|]));
          assert line == ReadLine(chunk, millis);
          data.PushBack(line);
          AppendedStep(events, taken);
        case ReadError =>
          AppendedStep(events, taken);
        case Shutdown =>
          AppendedAtShutdown(events, taken);
          return;
      }
      taken := taken + 1;
    }
    assert events[..taken] == events;
  }

  // ----- the handle that stops the reader once -----

  /** The port settings a reader task was opened with. */
  datatype PortSettings = PortSettings(path: string, baudRate: u32, dataBits: byte, stopBits: byte)

  /** The `JoinHandle` of a spawned reader task, named by the port it reads. */
  datatype ReaderTask = ReaderTask(port: PortSettings)

  /** What a `Serial` holds: the task-handle slot, and the shutdown messages sent so far. */
  datatype SerialState = SerialState(handle: Option<ReaderTask>, shutdownsSent: nat)

  /** One `close`: a present handle is taken and one shutdown message is sent; an empty slot changes nothing. */
  function AfterClose(s: SerialState): SerialState
  {
    match s.handle
    case Some(_) => SerialState(None, s.shutdownsSent + 1)
    case None => s
  }

  /** `n` calls of `close` in a row. */
  function AfterCloses(s: SerialState, n: nat): SerialState
    decreases n
  {
    if n == 0 then s else AfterCloses(AfterClose(s), n - 1)
  }

  /**
   * Closing is idempotent: any number of closes (at least one) leaves the slot
   * empty and sends exactly one shutdown message if a task was running, none
   * otherwise.
   */
  lemma {:induction false} ClosesActLikeOne(s: SerialState, n: nat)
    requires n >= 1
    ensures AfterCloses(s, n) == AfterClose(s)
    ensures AfterCloses(s, n).handle == None
    ensures AfterCloses(s, n).shutdownsSent == s.shutdownsSent + (if s.handle.Some? then 1 else 0)
    decreases n
  {
    if n > 1 {
      ClosesActLikeOne(AfterClose(s), n - 1);
    }
  }

  /** `Serial`: the shutdown sender and the slot holding the reader task's handle. */
  class Serial {
    var handle: Option<ReaderTask>
    var shutdownsSent: nat

    function State(): SerialState
      reads this
    {
      SerialState(handle, shutdownsSent)
    }

    /** `Serial::new`: opens the port with the given settings and spawns the reader on it. */
    constructor (path: string, baudRate: u32, dataBits: byte, stopBits: byte)
      ensures State() == SerialState(Some(ReaderTask(PortSettings(path, baudRate, dataBits, stopBits))), 0)
    {
      handle := Some(ReaderTask(PortSettings(path, baudRate, dataBits, stopBits)));
      shutdownsSent := 0;
    }

    /**
     * `Serial::close`: `take()` empties the slot; only when it held a handle is
     * the shutdown message sent (the reader then stops, see `ShutdownEndsLoop`)
     * and the task awaited.
     */
    method Close()
      modifies this
      ensures State() == AfterClose(old(State()))
    {
      var taken := handle;
      handle := None;
      if taken.Some? {
        shutdownsSent := shutdownsSent + 1;
      }
    }
  }
}
