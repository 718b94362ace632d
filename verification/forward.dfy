/**
 * One direction of a proxied connection (`forward` in the latency proxy): a
 * reader task appends each chunk read from the source to a queue, stamped
 * with its arrival time and a release time one one-way delay later, and a
 * writer task waits for the head's release time, sends it, records the delay
 * and, every `windowReport` chunks, reports statistics on the latest window.
 *
 * Time is an abstract integer clock that only moves forward (`Tick`); the
 * two tasks are interleaved as single steps on one object.
 */
module Forward {

  type Bytes = seq<bv8>

  /** A queued chunk: `(arrival, release, data)`. */
  datatype Chunk = Chunk(arrival: int, release: int, data: Bytes)

  /** A periodic statistics line: the window of delays it covers and the
      index into the sorted window that is reported as the 95th percentile. */
  datatype StatsReport = StatsReport(window: seq<int>, p95Index: nat)

  /** What one step of the writer did. */
  datatype WriterStep =
    | Yielded    // queue empty, reader still running: `await asyncio.sleep(0)`
    | Sleeping   // head not yet due: `await asyncio.sleep(delay)` still pending
    | Sent       // head popped, written and its delay recorded
    | Finished   // queue empty after EOF: `write_eof()` tried, writer returned

  /** The payloads of the queued chunks, in queue order. */
  function Payloads(q: seq<Chunk>): (r: seq<Bytes>)
    ensures |r| == |q|
  {
    if q == [] then [] else [q[0].data] + Payloads(q[1..])
  }

  lemma {:induction false} PayloadsAppend(q: seq<Chunk>, c: Chunk)
    ensures Payloads(q + [c]) == Payloads(q) + [c.data]
  {
    if q != [] {
      assert (q + [c])[1..] == q[1..] + [c];
      PayloadsAppend(q[1..], c);
    }
  }

  /** Payload i is the data of chunk i. */
  lemma {:induction false} PayloadsAt(q: seq<Chunk>, i: nat)
    requires i < |q|
    ensures Payloads(q)[i] == q[i].data
  {
    if i > 0 {
      PayloadsAt(q[1..], i - 1);
    }
  }

  /** The delays recorded when the chunks of `q` are all written at `clock`:
      each one's time since it was read. */
  function SentDelays(q: seq<Chunk>, clock: int): (r: seq<int>)
    ensures |r| == |q|
  {
    if q == [] then [] else [clock - q[0].arrival] + SentDelays(q[1..], clock)
  }

  /** Sending one more chunk appends its delay. */
  lemma {:induction false} SentDelaysAppend(q: seq<Chunk>, c: Chunk, clock: int)
    ensures SentDelays(q + [c], clock) == SentDelays(q, clock) + [clock - c.arrival]
  {
    if q != [] {
      assert (q + [c])[1..] == q[1..] + [c];
      SentDelaysAppend(q[1..], c, clock);
    }
  }

  /** Sending chunk `n` of `q` after the first `n` adds its payload. */
  lemma SentStep(q: seq<Chunk>, n: nat, clock: int)
    requires n < |q|
    ensures Payloads(q[..n + 1]) == Payloads(q[..n]) + [q[n].data]
  {
    assert q[..n + 1] == q[..n] + [q[n]];
    PayloadsAppend(q[..n], q[n]);
  }

  /** Delays listed one by one after `d0` are `d0` followed by `SentDelays`. */
  lemma {:induction false} SentDelaysAt(delays: seq<int>, d0: seq<int>, q: seq<Chunk>, clock: int)
    requires |delays| == |d0| + |q| && delays[..|d0|] == d0
    requires forall i :: 0 <= i < |q| ==> delays[|d0| + i] == clock - q[i].arrival
    ensures delays == d0 + SentDelays(q, clock)
  {
    if q != [] {
      var n := |q| - 1;
      SentDelaysAt(delays[..|d0| + n], d0, q[..n], clock);
      SentDelaysAppend(q[..n], q[n], clock);
      assert q[..n] + [q[n]] == q;
      assert delays == delays[..|d0| + n] + [delays[|d0| + n]];
    }
  }

  /** `int(0.95 * n)`: the p95 position in a sorted window of `n` samples,
      taken as the exact floor of 95n/100. */
  function P95Index(n: nat): (i: nat)
    ensures 100 * i <= 95 * n < 100 * (i + 1)
    ensures n > 0 ==> i < n
  {
    95 * n / 100
  }

  /** A statistics line is due exactly when reporting is on and the number
      of recorded delays is a multiple of the window. */
  predicate ReportDue(count: nat, windowReport: int) {
    windowReport > 0 && count % windowReport == 0
  }

  /** The statistics lines printed while the delays were recorded one by one:
      after each append, one report on the last `windowReport` delays when due. */
  function Reports(delays: seq<int>, windowReport: int): seq<StatsReport> {
    if delays == [] then []
    else Reports(delays[..|delays| - 1], windowReport) + DueReport(delays, windowReport)
  }

  /** The line printed as the last of `delays` is recorded: one report on the
      last `windowReport` delays when due, else none. */
  function DueReport(delays: seq<int>, windowReport: int): seq<StatsReport>
    requires delays != []
  {
    if ReportDue(|delays|, windowReport) then
      DueMeansFull(|delays|, windowReport);
      [StatsReport(delays[|delays| - windowReport..], P95Index(windowReport))]
    else []
  }

  /** Every `windowReport` delays give exactly one report, and report k
      covers the k-th block of `windowReport` consecutive delays, so each
      report's window is full; with reporting off there are none. */
  lemma ReportsAreWindows(delays: seq<int>, w: int)
    ensures w <= 0 ==> Reports(delays, w) == []
    ensures w > 0 ==> |Reports(delays, w)| == |delays| / w
    ensures w > 0 ==> forall k :: 0 <= k < |Reports(delays, w)| ==>
      k * w + w <= |delays|
      && Reports(delays, w)[k] == StatsReport(delays[k * w..k * w + w], P95Index(w))
  {
    if w <= 0 {
      ReportsOff(delays, w);
    } else {
      ReportsCount(delays, w);
      forall k | 0 <= k < |Reports(delays, w)|
        ensures k * w + w <= |delays|
        ensures Reports(delays, w)[k] == StatsReport(delays[k * w..k * w + w], P95Index(w))
      {
        ReportAt(delays, w, k);
      }
    }
  }

  lemma {:induction false} ReportsOff(delays: seq<int>, w: int)
    requires w <= 0
    ensures Reports(delays, w) == []
  {
    if delays != [] {
      ReportsOff(delays[..|delays| - 1], w);
    }
  }

  lemma {:induction false} ReportsCount(delays: seq<int>, w: int)
    requires w > 0
    ensures |Reports(delays, w)| == |delays| / w
  {
    if delays != [] {
      ReportsCount(delays[..|delays| - 1], w);
      DivStep(|delays| - 1, w);
    }
  }

  lemma {:induction false} ReportAt(delays: seq<int>, w: int, k: nat)
    requires w > 0 && k < |delays| / w
    ensures k * w + w <= |delays|
    ensures |Reports(delays, w)| == |delays| / w
    ensures Reports(delays, w)[k] == StatsReport(delays[k * w..k * w + w], P95Index(w))
  {
    var n := |delays|;
    ReportsCount(delays, w);
    ReportsCount(delays[..n - 1], w);
    DivStep(n - 1, w);
    if k < (n - 1) / w {
      ReportAt(delays[..n - 1], w, k);
      EarlierReport(delays, w, k);
    } else {
      LastReport(delays, w, k);
    }
  }

  /** Report k of a prefix is report k of the whole. */
  lemma EarlierReport(delays: seq<int>, w: int, k: nat)
    requires w > 0 && |delays| > 0
    requires k * w + w <= |delays| - 1
    requires k < |Reports(delays[..|delays| - 1], w)|
    requires Reports(delays[..|delays| - 1], w)[k]
      == StatsReport(delays[..|delays| - 1][k * w..k * w + w], P95Index(w))
    ensures Reports(delays, w)[k] == StatsReport(delays[k * w..k * w + w], P95Index(w))
  {
    var prefix := delays[..|delays| - 1];
    assert Reports(delays, w)[k] == Reports(prefix, w)[k];
    assert delays[k * w..k * w + w] == prefix[k * w..k * w + w];
  }

  /** The report a delay triggers covers the last `w` delays. */
  lemma LastReport(delays: seq<int>, w: int, k: nat)
    requires w > 0 && |delays| > 0
    requires k == |Reports(delays[..|delays| - 1], w)|
    requires |delays| % w == 0 && |delays| == k * w + w
    ensures |Reports(delays, w)| == k + 1
    ensures Reports(delays, w)[k] == StatsReport(delays[k * w..k * w + w], P95Index(w))
  {
    var n, m := |delays|, k * w;
    assert ReportDue(n, w) && n - w == m;
    assert delays[m..m + w] == delays[n - w..];
    var last := StatsReport(delays[m..m + w], P95Index(w));
    assert DueReport(delays, w) == [last];
    assert Reports(delays, w) == Reports(delays[..n - 1], w) + [last];
  }

  /** Adding one to `n` adds one to `n / w` exactly when `n + 1` is a
      multiple of `w`, and then `n + 1` is that many blocks of `w`. */
  lemma DivStep(n: nat, w: int)
    requires w > 0
    ensures (n + 1) / w == n / w + (if (n + 1) % w == 0 then 1 else 0)
    ensures (n + 1) % w == 0 ==> n + 1 == n / w * w + w
  {
    var q, r := n / w, n % w;
    assert n == q * w + r;
    if r + 1 == w {
      assert n + 1 == (q + 1) * w + 0;
      DivOfSum(q + 1, 0, w);
    } else {
      DivOfSum(q, r + 1, w);
    }
  }

  /** Division and remainder of `q * w + r` for `0 <= r < w`. */
  lemma DivOfSum(q: int, r: int, w: int)
    requires w > 0 && 0 <= r < w
    ensures (q * w + r) / w == q && (q * w + r) % w == r
  {
    var n := q * w + r;
    var q', r' := n / w, n % w;
    assert q' * w + r' == q * w + r;
    var d := q - q';
    assert d * w == r' - r;
    if d >= 1 {
      MulAtLeast(d, w);
      assert false;
    } else if d <= -1 {
      MulAtLeast(-d, w);
      assert false;
    }
  }

  /** A report is only due once a whole window of delays exists. */
  lemma DueMeansFull(n: nat, w: int)
    requires n > 0 && ReportDue(n, w)
    ensures n >= w
  {
    var q := n / w;
    assert n == q * w;
    if q > 0 {
      MulAtLeast(q, w);
    }
  }

  lemma MulAtLeast(a: int, w: int)
    requires a >= 1 && w > 0
    ensures a * w >= w
  {
  }

  /** A chunk as the reader stamps it: non-empty, due one delay after it
      arrived, and arrived no later than now. */
  predicate ChunkInvariant(c: Chunk, oneWay: nat, clock: int) {
    c.release == c.arrival + oneWay && c.arrival <= clock && |c.data| > 0
  }

  /** The queue as the reader builds it: every chunk satisfies the chunk
      invariant and each arrived no later than the next one. */
  predicate QueueInvariant(q: seq<Chunk>, oneWay: nat, clock: int) {
    q == [] ||
      (ChunkInvariant(q[0], oneWay, clock)
       && (|q| > 1 ==> q[0].arrival <= q[1].arrival)
       && QueueInvariant(q[1..], oneWay, clock))
  }

  /** The queue invariant read pointwise: each chunk is well stamped and the
      queue is in order of arrival. */
  lemma {:induction false} QueueOrdered(q: seq<Chunk>, oneWay: nat, clock: int)
    requires QueueInvariant(q, oneWay, clock)
    ensures forall i :: 0 <= i < |q| ==> ChunkInvariant(q[i], oneWay, clock)
    ensures forall i, j :: 0 <= i < j < |q| ==> q[i].arrival <= q[j].arrival
  {
    if q != [] {
      QueueOrdered(q[1..], oneWay, clock);
      forall i | 0 < i < |q| ensures ChunkInvariant(q[i], oneWay, clock) {
        assert q[i] == q[1..][i - 1];
      }
      forall i, j | 0 <= i < j < |q| ensures q[i].arrival <= q[j].arrival {
        if i > 0 {
          assert q[i] == q[1..][i - 1] && q[j] == q[1..][j - 1];
        } else if j > 1 {
          assert q[1] == q[1..][0] && q[j] == q[1..][j - 1];
        }
      }
    }
  }

  lemma {:induction false} QueueLater(q: seq<Chunk>, oneWay: nat, clock: int, now: int)
    requires QueueInvariant(q, oneWay, clock) && clock <= now
    ensures QueueInvariant(q, oneWay, now)
  {
    if q != [] {
      QueueLater(q[1..], oneWay, clock, now);
    }
  }

  /** A chunk stamped now keeps the queue in order behind the chunks already there. */
  lemma {:induction false} QueuePush(q: seq<Chunk>, oneWay: nat, clock: int, data: Bytes)
    requires QueueInvariant(q, oneWay, clock) && |data| > 0
    ensures QueueInvariant(q + [Chunk(clock, clock + oneWay, data)], oneWay, clock)
  {
    var c := Chunk(clock, clock + oneWay, data);
    if q != [] {
      assert (q + [c])[1..] == q[1..] + [c];
      QueuePush(q[1..], oneWay, clock, data);
    }
  }

  /** Recording one more delay adds the report that becomes due, if any. */
  lemma RecordDelay(delays: seq<int>, x: int, w: int)
    ensures Reports(delays + [x], w) == Reports(delays, w) + DueReport(delays + [x], w)
  {
    assert (delays + [x])[..|delays|] == delays;
  }

  class Forwarder {
    const oneWay: nat
    const windowReport: int
    const readChunk: int

    var clock: int
    /** The deque `q` shared by the two tasks. */
    var queue: seq<Chunk>
    /** The `done` event: the source reached end of file. */
    var done: bool
    /** Payloads handed to `dest.write`, in order. */
    var written: seq<Bytes>
    /** The `delays` list: send time minus arrival time of each written chunk. */
    var delays: seq<int>
    /** The statistics lines printed so far. */
    var reports: seq<StatsReport>
    /** The writer has returned. */
    var writerFinished: bool
    /** `dest.write_eof()` was called and did not raise. */
    var eofWritten: bool
    /** Every non-empty chunk the reader has read, in order. */
    ghost var received: seq<Bytes>

    ghost predicate Valid()
      reads this
    {
      && written + Payloads(queue) == received
      && QueueInvariant(queue, oneWay, clock)
      && |delays| == |written|
      && (forall k :: 0 <= k < |delays| ==> delays[k] >= oneWay)
      && reports == Reports(delays, windowReport)
      && (writerFinished ==> done && queue == [])
      && (eofWritten ==> writerFinished)
    }

    constructor (oneWay: nat, windowReport: int, readChunk: int, start: int)
      ensures Valid()
      ensures this.oneWay == oneWay && this.windowReport == windowReport && this.readChunk == readChunk
      ensures clock == start && queue == [] && !done && written == [] && delays == [] && reports == []
      ensures !writerFinished && !eofWritten && received == []
    {
      this.oneWay := oneWay;
      this.windowReport := windowReport;
      this.readChunk := readChunk;
      clock := start;
      queue := [];
      done := false;
      written := [];
      delays := [];
      reports := [];
      writerFinished := false;
      eofWritten := false;
      received := [];
    }

    /** Time passes; nothing else changes. */
    method Tick(now: int)
      requires Valid() && now >= clock
      modifies this
      ensures Valid() && clock == now
      ensures queue == old(queue) && done == old(done) && written == old(written)
      ensures delays == old(delays) && reports == old(reports) && received == old(received)
      ensures writerFinished == old(writerFinished) && eofWritten == old(eofWritten)
    {
      QueueLater(queue, oneWay, clock, now);
      clock := now;
    }

    /** One pass of the reader loop with the bytes `source.read(read_chunk)`
        returned: an empty read sets `done` and ends the reader; any other
        chunk joins the back of the queue, due one delay after now. */
    method Read(data: Bytes)
      requires Valid() && !done
      requires readChunk > 0 ==> |data| <= readChunk
      requires readChunk == 0 ==> data == []
      modifies this
      ensures Valid()
      ensures done == (data == [])
      ensures queue == old(queue) + (if data == [] then [] else [Chunk(clock, clock + oneWay, data)])
      ensures received == old(received) + (if data == [] then [] else [data])
      ensures clock == old(clock) && written == old(written) && delays == old(delays) && reports == old(reports)
      ensures writerFinished == old(writerFinished) && eofWritten == old(eofWritten)
    {
      if data == [] {
        done := true;
      } else {
        QueuePush(queue, oneWay, clock, data);
        PayloadsAppend(queue, Chunk(clock, clock + oneWay, data));
        queue := queue + [Chunk(clock, clock + oneWay, data)];
        received := received + [data];
      }
    }

    /** One pass of the writer loop. With the queue empty it returns after
        trying `write_eof` (an exception, `eofFails`, is swallowed) once the
        reader is done, and yields otherwise. With a chunk queued it sleeps
        until the head's release time, then pops it, writes it, records
        `send time - arrival` and prints a report when one is due. */
    method Write(eofFails: bool) returns (step: WriterStep)
      requires Valid() && !writerFinished
      modifies this
      ensures Valid()
      ensures step == Finished <==> old(queue) == [] && old(done)
      ensures step == Yielded <==> old(queue) == [] && !old(done)
      ensures step == Sleeping <==> old(queue) != [] && clock < old(queue)[0].release
      ensures step == Sent ==>
        queue == old(queue)[1..]
        && written == old(written) + [old(queue)[0].data]
        && delays == old(delays) + [clock - old(queue)[0].arrival]
      ensures step != Sent ==> queue == old(queue) && written == old(written) && delays == old(delays)
      ensures writerFinished == (step == Finished)
      ensures eofWritten == (step == Finished && !eofFails)
      ensures clock == old(clock) && done == old(done) && received == old(received)
    {
      if queue == [] {
        if done {
          writerFinished := true;
          eofWritten := !eofFails;
          step := Finished;
        } else {
          step := Yielded;
        }
      } else if clock < queue[0].release {
        step := Sleeping;
      } else {
        Send();
        step := Sent;
      }
    }

    /** The rest of a writer pass once the head is due: pop it, write it,
        record `send time - arrival`, and print a report when one is due. */
    method Send()
      requires Valid() && queue != [] && queue[0].release <= clock
      modifies this
      ensures Valid()
      ensures queue == old(queue)[1..]
      ensures written == old(written) + [old(queue)[0].data]
      ensures delays == old(delays) + [clock - old(queue)[0].arrival]
      ensures clock == old(clock) && done == old(done) && received == old(received)
      ensures writerFinished == old(writerFinished) && eofWritten == old(eofWritten)
    {
      var head := queue[0];
      var sendTime := clock;
      var newDelays := delays + [sendTime - head.arrival];
      var newReports := reports + DueReport(newDelays, windowReport);
      RecordDelay(delays, sendTime - head.arrival, windowReport);
      queue, written, delays, reports := queue[1..], written + [head.data], newDelays, newReports;
    }

    /** The writer loop run at a fixed time: every chunk already due is sent,
        in order, and the first chunk still pending (if any) is left at the
        head. */
    method SendDue() returns (sent: nat)
      requires Valid() && !writerFinished
      modifies this
      ensures Valid()
      ensures sent <= |old(queue)| && queue == old(queue)[sent..]
      ensures written == old(written) + Payloads(old(queue)[..sent])
      ensures delays == old(delays) + SentDelays(old(queue)[..sent], clock)
      ensures queue == [] || clock < queue[0].release
      ensures forall i :: 0 <= i < sent ==> old(queue)[i].release <= clock
      ensures clock == old(clock) && done == old(done) && received == old(received)
      ensures writerFinished == old(writerFinished) && eofWritten == old(eofWritten)
    {
      ghost var q0, w0, d0 := queue, written, delays;
      sent := 0;
      while queue != [] && queue[0].release <= clock
        invariant Valid() && !writerFinished && eofWritten == old(eofWritten)
        invariant clock == old(clock) && done == old(done) && received == old(received)
        invariant SentPrefix(q0, w0, d0, sent)
        decreases |queue|
      {
        SendNext(q0, w0, d0, sent);
        sent := sent + 1;
      }
      SentDelaysAt(delays, d0, q0[..sent], clock);
    }

    /** After the first `sent` chunks of `q0` were written at the current
        time, starting from the output `w0` and the delays `d0`. */
    ghost predicate SentPrefix(q0: seq<Chunk>, w0: seq<Bytes>, d0: seq<int>, sent: nat)
      reads this
    {
      && sent <= |q0| && queue == q0[sent..]
      && written == w0 + Payloads(q0[..sent])
      && |delays| == |d0| + sent && delays[..|d0|] == d0
      && (forall i :: 0 <= i < sent ==> delays[|d0| + i] == clock - q0[i].arrival && q0[i].release <= clock)
    }

    /** One turn of the writer loop at a fixed time. */
    method SendNext(ghost q0: seq<Chunk>, ghost w0: seq<Bytes>, ghost d0: seq<int>, sent: nat)
      requires Valid() && SentPrefix(q0, w0, d0, sent)
      requires queue != [] && queue[0].release <= clock
      modifies this
      ensures Valid() && SentPrefix(q0, w0, d0, sent + 1)
      ensures clock == old(clock) && done == old(done) && received == old(received)
      ensures writerFinished == old(writerFinished) && eofWritten == old(eofWritten)
    {
      ghost var head := queue[0];
      assert head == q0[sent];
      Send();
      assert queue == q0[sent + 1..];
      SentStep(q0, sent, clock);
    }
  }

  /** Every recorded delay is at least the one-way delay, every written chunk
      was read, in order, and end of file is only passed on once everything
      read has been written. */
  lemma DeliveryGuarantees(f: Forwarder)
    requires f.Valid()
    ensures forall k :: 0 <= k < |f.delays| ==> f.delays[k] >= f.oneWay
    ensures |f.written| <= |f.received| && f.written == f.received[..|f.written|]
    ensures f.writerFinished ==> f.written == f.received
    ensures f.eofWritten ==> f.done && f.queue == [] && f.written == f.received
  {
    assert f.received == f.written + Payloads(f.queue);
    assert f.received[..|f.written|] == f.written;
  }
}
