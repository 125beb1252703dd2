/** The bit-banged UART: edges and samples at rounded absolute deadlines against a cycle counter
    of 32 bits that wraps. Times are counted in cycles without end. */
module SoftUart {
  import opened Bytes
  import opened Numbers

  const N_BIT_DEADLINES: nat := 11

  // ----- the deadlines -----

  /** n + 1 bit times, rounded to the nearest cycle: f cycles a second, baud bits a second. */
  function TxAt(f: nat, baud: nat, n: nat): nat
    requires baud > 0
  {
    ((n + 1) * 2 * f + baud) / (2 * baud)
  }

  /** n + 1/2 bit times, rounded. */
  function RxAt(f: nat, baud: nat, n: nat): nat
    requires baud > 0
  {
    ((2 * n + 1) * f + baud) / (2 * baud)
  }

  /** Clock and bit rate for which every deadline is far from the counter's width. */
  predicate Rates(f: nat, baud: nat) {
    0 < baud && 11 * f < 0x8000_0000 * baud
  }

  lemma Rounded(m: nat, x: nat)
    requires m > 0
    ensures m * (x / m) <= x < m * (x / m) + m
  {
  }

  lemma LessFrom(m: nat, a: int, b: int)
    requires m > 0 && m * a < m * b
    ensures a < b
  {
    if a >= b { MulLe(m, b, a); }
  }

  lemma MulLe(m: nat, a: int, b: int)
    requires a <= b
    ensures m * a <= m * b
  {
  }

  /** A latency of l cycles, and one for the rounding, is at most half a bit. */
  predicate HalfBit(f: nat, baud: nat, l: nat) {
    2 * baud * (l + 1) <= f
  }

  /** A sample and the edges on either side of it are more than l cycles apart. */
  lemma Gaps(f: nat, baud: nat, n: nat, l: nat)
    requires baud > 0 && HalfBit(f, baud, l)
    ensures RxAt(f, baud, n) + l < TxAt(f, baud, n)
    ensures TxAt(f, baud, n) + l < RxAt(f, baud, n + 1)
  {
    var m := 2 * baud;
    var u, v, w := TxAt(f, baud, n), RxAt(f, baud, n), RxAt(f, baud, n + 1);
    Rounded(m, (n + 1) * 2 * f + baud);
    Rounded(m, (2 * n + 1) * f + baud);
    Rounded(m, (2 * n + 3) * f + baud);
    BitTimes(f, n);
    Spread(m, l, u, v, w);
    LessFrom(m, v + l, u);
    LessFrom(m, u + l, w);
  }

  lemma BitTimes(f: nat, n: nat)
    ensures (n + 1) * 2 * f == (2 * n + 1) * f + f && (2 * n + 3) * f == (n + 1) * 2 * f + f
    ensures (2 * (n + 1) + 1) * f == (2 * n + 3) * f
  {
  }

  lemma Spread(m: nat, l: nat, u: nat, v: nat, w: nat)
    ensures m * (v + l) == m * v + m * l && m * (u + l) == m * u + m * l && m * (l + 1) == m * l + m
  {
  }

  /** No deadline reaches half the counter. */
  lemma Bounded(f: nat, baud: nat, n: nat)
    requires Rates(f, baud) && n < N_BIT_DEADLINES
    ensures TxAt(f, baud, n) <= 0x8000_0000 && RxAt(f, baud, n) <= 0x8000_0000
  {
    var m := 2 * baud;
    Rounded(m, (n + 1) * 2 * f + baud);
    Rounded(m, (2 * n + 1) * f + baud);
    MulLe(2 * f, n + 1, 11);
    MulLe(f, 2 * n + 1, 22);
    assert (n + 1) * 2 * f == 2 * f * (n + 1) && (2 * n + 1) * f == f * (2 * n + 1);
    assert m * 0x8000_0001 == 2 * (0x8000_0000 * baud) + 2 * baud;
    LessFrom(m, TxAt(f, baud, n), 0x8000_0001);
    LessFrom(m, RxAt(f, baud, n), 0x8000_0001);
  }

  /** timing_init: the cast to 32 bits loses nothing. */
  method TimingInit(f: nat, baud: nat, tx: array<nat>, rx: array<nat>)
    requires Rates(f, baud) && tx.Length == N_BIT_DEADLINES == rx.Length && tx != rx
    modifies tx, rx
    ensures forall n :: 0 <= n < N_BIT_DEADLINES ==> tx[n] == TxAt(f, baud, n) && rx[n] == RxAt(f, baud, n)
  {
    var n := 0;
    while n < N_BIT_DEADLINES
      invariant 0 <= n <= N_BIT_DEADLINES
      invariant forall j :: 0 <= j < n ==> tx[j] == TxAt(f, baud, j) && rx[j] == RxAt(f, baud, j)
    {
      Bounded(f, baud, n);
      Fits32(TxAt(f, baud, n));
      Fits32(RxAt(f, baud, n));
      tx[n] := TxAt(f, baud, n) % WRAP;
      rx[n] := RxAt(f, baud, n) % WRAP;
      n := n + 1;
    }
  }

  lemma Fits32(x: nat)
    requires x <= 0x8000_0000
    ensures x % WRAP == x
  {
  }

  // ----- one end of the line -----

  /** When the processor reads its counter for the k-th time (clock), and when it accesses the pin
      after that and before the next reading (pin). The counter started at offset. */
  datatype End = End(clock: nat -> nat, pin: nat -> nat, offset: nat, step: nat)
  {
    /** Readings follow one another within step cycles. */
    ghost predicate Ticks(k: nat) {
      clock(k) < clock(k + 1) <= clock(k) + step && clock(k) <= pin(k) <= clock(k + 1)
    }

    ghost predicate Runs() {
      forall k: nat :: Ticks(k)
    }

    /** dwt_now */
    function Now(k: nat): (c: nat)
      ensures c < WRAP
    {
      (clock(k) + offset) % WRAP
    }
  }

  lemma TickOf(e: End, k: nat)
    requires e.Runs()
    ensures e.clock(k) < e.clock(k + 1) <= e.clock(k) + e.step
    ensures e.clock(k) <= e.pin(k) <= e.clock(k + 1)
  {
    assert e.Ticks(k);
  }

  /** The difference of two readings is the time between them, also when the counter wrapped. */
  lemma Elapsed(e: End, k0: nat, k: nat)
    requires e.clock(k0) <= e.clock(k) < e.clock(k0) + WRAP
    ensures (e.Now(k) - e.Now(k0)) % WRAP == e.clock(k) - e.clock(k0)
  {
    var a, b := e.clock(k0) + e.offset, e.clock(k) + e.offset;
    var q, r := a / WRAP, b / WRAP;
    assert a == WRAP * q + a % WRAP && b == WRAP * r + b % WRAP;
    assert (b % WRAP - a % WRAP) == (b - a) + WRAP * (q - r);
  }

  /** The readings from k0 on, up to one at or after the deadline and within a step of it. */
  ghost predicate Waited(e: End, k0: nat, deadline: nat, k: nat) {
    e.clock(k0) + deadline <= e.clock(k) <= e.clock(k0) + deadline + e.step
  }

  /** The busy wait: read the counter until so many cycles have gone by since t0. */
  method WaitFor(e: End, k0: nat, from: nat, deadline: nat) returns (k: nat)
    requires e.Runs() && from >= k0 && deadline + e.step < WRAP
    requires e.clock(k0) <= e.clock(from) <= e.clock(k0) + deadline
    ensures k > from && Waited(e, k0, deadline, k)
    ensures forall j :: from < j < k ==> e.clock(j) < e.clock(k0) + deadline
  {
    k := from + 1;
    TickOf(e, from);
    Elapsed(e, k0, k);
    while (e.Now(k) - e.Now(k0)) % WRAP < deadline
      invariant k > from && e.clock(k0) <= e.clock(k) <= e.clock(k0) + deadline + e.step
      invariant forall j :: from < j < k ==> e.clock(j) < e.clock(k0) + deadline
      decreases e.clock(k0) + deadline + e.step - e.clock(k)
    {
      Elapsed(e, k0, k);
      TickOf(e, k);
      k := k + 1;
    }
    Elapsed(e, k0, k);
  }

  // ----- frames -----

  lemma HalfQuotient(x: nat, p: nat)
    requires p > 0
    ensures x / p / 2 == x / (2 * p)
    ensures x % (2 * p) == x % p + (if x / p % 2 == 1 then p else 0)
  {
    var q, r := DivModDef(p, x);
    assert 2 * p * (q / 2) == p * (2 * (q / 2));
    assert p * q == p * (2 * (q / 2)) + p * (q % 2);
    DivModIs(2 * p, x, q / 2, p * (q % 2) + r);
  }

  lemma NextBit(data: nat, i: nat)
    requires i < 8
    ensures data / Pow2(i) / 2 == data / Pow2(i + 1)
    ensures data % Pow2(i + 1) == data % Pow2(i) + (if BitOf(data, i) then Pow2(i) else 0)
    ensures Pow2(8) == 256 && Pow2(0) == 1
    ensures Pow2(i + 1) <= 256
  {
    BitIs(data, i);
    assert Pow2(1) == 2 && Pow2(2) == 4 && Pow2(3) == 8 && Pow2(4) == 16;
    assert Pow2(5) == 32 && Pow2(6) == 64 && Pow2(7) == 128 && Pow2(8) == 256;
    HalfQuotient(data, Pow2(i));
  }

  /** The level of part j of a frame: start bit, eight data bits lowest first, stop bit. */
  predicate LevelOf(data: byte, j: nat) {
    if j == 0 then false else if j <= 8 then BitOf(data, j - 1) else true
  }

  datatype Edge = Edge(time: nat, level: bool)

  /** When part j of a frame should begin. */
  function DueAt(f: nat, baud: nat, j: nat): nat
    requires baud > 0
  {
    if j == 0 then 0 else TxAt(f, baud, j - 1)
  }

  /** Edge j of a frame that starts at t0 comes at most late cycles late. */
  ghost predicate EdgeOk(f: nat, baud: nat, t0: nat, late: nat, data: byte, j: nat, x: Edge)
    requires baud > 0
  {
    x.level == LevelOf(data, j) && t0 + DueAt(f, baud, j) <= x.time <= t0 + DueAt(f, baud, j) + late
  }

  ghost predicate Frame(f: nat, baud: nat, t0: nat, late: nat, data: byte, es: seq<Edge>)
    requires baud > 0
  {
    |es| <= 10 && forall j :: 0 <= j < |es| ==> EdgeOk(f, baud, t0, late, data, j, es[j])
  }

  lemma FrameMore(f: nat, baud: nat, t0: nat, late: nat, data: byte, es: seq<Edge>, x: Edge)
    requires baud > 0 && Frame(f, baud, t0, late, data, es) && |es| < 10 && EdgeOk(f, baud, t0, late, data, |es|, x)
    ensures Frame(f, baud, t0, late, data, es + [x])
  {
  }

  /** The pin access after a wait, as an edge. */
  lemma EdgeAfter(e: End, f: nat, baud: nat, k0: nat, k: nat, data: byte, j: nat, x: Edge)
    requires baud > 0 && e.Runs() && j <= 9
    requires if j == 0 then k == k0 else Waited(e, k0, TxAt(f, baud, j - 1), k)
    requires x == Edge(e.pin(k), LevelOf(data, j))
    ensures EdgeOk(f, baud, e.clock(k0), 2 * e.step, data, j, x)
  {
    TickOf(e, k);
  }

  /** Before the wait for deadline n, the clock has not passed it. */
  lemma WaitReady(e: End, f: nat, baud: nat, k0: nat, k: nat, n: nat)
    requires Rates(f, baud) && e.Runs() && HalfBit(f, baud, e.step) && n < 11
    requires if n == 0 then k == k0 else Waited(e, k0, TxAt(f, baud, n - 1), k)
    ensures e.clock(k0) <= e.clock(k) <= e.clock(k0) + TxAt(f, baud, n)
    ensures TxAt(f, baud, n) + e.step < WRAP
  {
    Bounded(f, baud, n);
    Gaps(f, baud, n, e.step);
    StepSmall(f, baud, e.step);
    if n > 0 { Gaps(f, baud, n - 1, e.step); }
  }

  lemma StepSmall(f: nat, baud: nat, l: nat)
    requires Rates(f, baud) && HalfBit(f, baud, l)
    ensures l < 0x4000_0000
  {
    assert 2 * baud * (l + 1) == baud * (2 * l + 2);
    assert baud * 0x8000_0000 == 0x8000_0000 * baud;
    LessFrom(baud, 2 * l + 2, 0x8000_0000);
  }

  ghost predicate TxReady(f: nat, baud: nat, tx: seq<nat>) {
    baud > 0 && |tx| == N_BIT_DEADLINES && forall n :: 0 <= n < N_BIT_DEADLINES ==> tx[n] == TxAt(f, baud, n)
  }

  lemma TxIs(f: nat, baud: nat, tx: seq<nat>, n: nat)
    requires TxReady(f, baud, tx) && n < 11
    ensures |tx| == 11 && tx[n] == TxAt(f, baud, n)
  {
  }

  lemma LevelIs(data: byte, j: nat)
    ensures LevelOf(data, 0) == false && LevelOf(data, 9) == true
    ensures j < 8 ==> LevelOf(data, j + 1) == (data / Pow2(j) % 2 == 1)
    ensures Pow2(0) == 1
  {
    if j < 8 { BitIs(data, j); }
  }

  lemma NoFrame(f: nat, baud: nat, t0: nat, late: nat, data: byte)
    requires baud > 0
    ensures Frame(f, baud, t0, late, data, [])
  {
  }

  /** softuart_write_byte: the frame of the byte, every edge in time to its deadline. */
  method WriteByte(e: End, k0: nat, f: nat, baud: nat, tx: array<nat>, data: byte) returns (k: nat, es: seq<Edge>)
    requires e.Runs() && Rates(f, baud) && baud > 0 && HalfBit(f, baud, e.step) && TxReady(f, baud, tx[..])
    ensures |es| == 10 && Frame(f, baud, e.clock(k0), 2 * e.step, data, es)
    ensures k > k0 && Waited(e, k0, TxAt(f, baud, 9), k)
  {
    hide *;
    NoFrame(f, baud, e.clock(k0), 2 * e.step, data);
    LevelIs(data, 0);
    TxIs(f, baud, tx[..], 0);
    EdgeAfter(e, f, baud, k0, k0, data, 0, Edge(e.pin(k0), false));
    FrameMore(f, baud, e.clock(k0), 2 * e.step, data, [], Edge(e.pin(k0), false));
    es := [] + [Edge(e.pin(k0), false)];
    WaitReady(e, f, baud, k0, k0, 0);
    k := WaitFor(e, k0, k0, tx[0]);
    var d: nat, i: nat := data as int, 0;
    while i < 8
      invariant i <= 8 && |es| == i + 1 && Frame(f, baud, e.clock(k0), 2 * e.step, data, es)
      invariant k > k0 && Waited(e, k0, TxAt(f, baud, i), k)
      invariant d == data / Pow2(i)
    {
      LevelIs(data, i);
      NextBit(data, i);
      TxIs(f, baud, tx[..], i + 1);
      var x := Edge(e.pin(k), d % 2 == 1);
      EdgeAfter(e, f, baud, k0, k, data, i + 1, x);
      FrameMore(f, baud, e.clock(k0), 2 * e.step, data, es, x);
      es := es + [x];
      d := d / 2;
      WaitReady(e, f, baud, k0, k, i + 1);
      k := WaitFor(e, k0, k, tx[i + 1]);
      i := i + 1;
    }
    LevelIs(data, 0);
    TxIs(f, baud, tx[..], 9);
    EdgeAfter(e, f, baud, k0, k, data, 9, Edge(e.pin(k), true));
    FrameMore(f, baud, e.clock(k0), 2 * e.step, data, es, Edge(e.pin(k), true));
    es := es + [Edge(e.pin(k), true)];
    WaitReady(e, f, baud, k0, k, 9);
    k := WaitFor(e, k0, k, tx[9]);
  }

  // ----- reading -----

  type Line = nat -> bool

  datatype Outcome = TimedOut | Glitch | Byte(value: byte)

  /** Sample j of a byte whose reference reading is k0. */
  ghost predicate SampleOk(e: End, f: nat, baud: nat, k0: nat, j: nat, t: nat)
    requires baud > 0
  {
    e.clock(k0) + RxAt(f, baud, j) <= t <= e.clock(k0) + RxAt(f, baud, j) + 2 * e.step
  }

  ghost predicate Samples(e: End, f: nat, baud: nat, k0: nat, ts: seq<nat>)
    requires baud > 0
  {
    forall j :: 0 <= j < |ts| ==> SampleOk(e, f, baud, k0, j, ts[j])
  }

  /** The value the samples after the first make on the line, lowest bit first. */
  function ValueOf(line: Line, ts: seq<nat>): nat {
    if |ts| <= 1 then 0 else ValueOf(line, ts[..|ts| - 1]) + (if line(ts[|ts| - 1]) then Pow2(|ts| - 2) else 0)
  }

  lemma SampleMore(e: End, f: nat, baud: nat, line: Line, k0: nat, ts: seq<nat>, k: nat)
    requires baud > 0 && e.Runs() && Samples(e, f, baud, k0, ts) && Waited(e, k0, RxAt(f, baud, |ts|), k)
    ensures Samples(e, f, baud, k0, ts + [e.pin(k)])
    ensures |ts| > 0 ==>
            ValueOf(line, ts + [e.pin(k)]) == ValueOf(line, ts) + (if line(e.pin(k)) then Pow2(|ts| - 1) else 0)
    ensures |ts| == 0 ==> ValueOf(line, ts + [e.pin(k)]) == 0
  {
    hide *;
    TickOf(e, k);
    SampleIs(e, f, baud, k0, ts, k);
    ValueMore(line, ts, e.pin(k));
  }

  lemma SampleIs(e: End, f: nat, baud: nat, k0: nat, ts: seq<nat>, k: nat)
    requires baud > 0 && Samples(e, f, baud, k0, ts) && Waited(e, k0, RxAt(f, baud, |ts|), k)
    requires e.clock(k) <= e.pin(k) <= e.clock(k) + e.step
    ensures Samples(e, f, baud, k0, ts + [e.pin(k)])
  {
    hide RxAt;
  }

  lemma ValueMore(line: Line, ts: seq<nat>, t: nat)
    ensures |ts| > 0 ==> ValueOf(line, ts + [t]) == ValueOf(line, ts) + (if line(t) then Pow2(|ts| - 1) else 0)
    ensures |ts| == 0 ==> ValueOf(line, ts + [t]) == 0
  {
    assert (ts + [t])[..|ts|] == ts;
  }

  lemma {:induction false} ValueBound(line: Line, ts: seq<nat>)
    requires 1 <= |ts|
    ensures ValueOf(line, ts) < Pow2(|ts| - 1)
  {
    if |ts| > 1 { ValueBound(line, ts[..|ts| - 1]); }
  }

  ghost predicate RxReady(f: nat, baud: nat, rx: seq<nat>) {
    baud > 0 && |rx| == N_BIT_DEADLINES && forall n :: 0 <= n < N_BIT_DEADLINES ==> rx[n] == RxAt(f, baud, n)
  }

  lemma RxIs(f: nat, baud: nat, rx: seq<nat>, n: nat)
    requires RxReady(f, baud, rx) && n < 11
    ensures |rx| == 11 && rx[n] == RxAt(f, baud, n)
  {
  }

  lemma SampleReady(e: End, f: nat, baud: nat, k0: nat, k: nat, n: nat)
    requires Rates(f, baud) && e.Runs() && HalfBit(f, baud, e.step) && n < 11
    requires if n == 0 then k == k0 else Waited(e, k0, RxAt(f, baud, n - 1), k)
    ensures e.clock(k0) <= e.clock(k) <= e.clock(k0) + RxAt(f, baud, n)
    ensures RxAt(f, baud, n) + e.step < WRAP
  {
    Bounded(f, baud, n);
    StepSmall(f, baud, e.step);
    if n > 0 {
      Gaps(f, baud, n - 1, e.step);
    }
  }

  /** The polls from k0 on: the line was high at each before the last. */
  ghost predicate Polled(e: End, line: Line, k0: nat, k: nat) {
    k0 <= k && forall j: nat :: k0 <= j < k ==> line(e.pin(j))
  }

  lemma PollMore(e: End, line: Line, k0: nat, k: nat)
    ensures Polled(e, line, k0, k0)
    ensures Polled(e, line, k0, k) && line(e.pin(k)) ==> Polled(e, line, k0, k + 1)
    ensures Polled(e, line, k0, k) ==> k >= k0
  {
  }

  /** Wait for the line to go low, until the timeout. */
  method WaitLow(e: End, line: Line, k0: nat, timeout: nat) returns (found: bool, k: nat)
    requires e.Runs() && timeout + e.step < WRAP
    ensures Polled(e, line, k0, k)
    ensures found ==> !line(e.pin(k))
    ensures !found ==> k > k0 && e.clock(k) > e.clock(k0) + timeout
  {
    hide *;
    found, k := true, k0;
    PollMore(e, line, k0, k0);
    while found && line(e.pin(k))
      invariant Polled(e, line, k0, k) && k >= k0
      invariant e.clock(k0) <= e.clock(k) && (found ==> e.clock(k) <= e.clock(k0) + timeout)
      invariant !found ==> k > k0 && e.clock(k) > e.clock(k0) + timeout
      decreases e.clock(k0) + timeout + e.step - e.clock(k), found
    {
      PollMore(e, line, k0, k);
      TickOf(e, k);
      k := k + 1;
      WrapIs();
      Elapsed(e, k0, k);
      if (e.Now(k) - e.Now(k0)) % WRAP > timeout {
        found := false;
      }
    }
  }

  lemma WrapIs()
    ensures WRAP == 0x1_0000_0000
  {
  }

  /** softuart_read_byte: ks is the reference reading after the start edge was seen, ts are the
      times of the samples: one in the start bit, one in each data bit. */
  method ReadByte(e: End, line: Line, k0: nat, f: nat, baud: nat, rx: array<nat>, timeout: nat)
    returns (out: Outcome, k: nat, ghost ks: nat, ghost ts: seq<nat>)
    requires e.Runs() && Rates(f, baud) && baud > 0 && HalfBit(f, baud, e.step) && RxReady(f, baud, rx[..])
    requires timeout + e.step < WRAP
    ensures k > k0
    ensures out == TimedOut ==> Polled(e, line, k0, k) && e.clock(k) > e.clock(k0) + timeout
    ensures out != TimedOut ==>
            ks > k0 && Polled(e, line, k0, ks - 1) && !line(e.pin(ks - 1)) && Samples(e, f, baud, ks, ts)
    ensures out == Glitch ==> |ts| == 1 && line(ts[0])
    ensures out.Byte? ==> |ts| == 9 && !line(ts[0]) && out.value as int == ValueOf(line, ts)
    ensures out.Byte? ==> k > ks && Waited(e, ks, RxAt(f, baud, 9), k)
  {
    hide *;
    WrapIs();
    out, ks, ts := TimedOut, 0, [];
    var found;
    found, k := WaitLow(e, line, k0, timeout);
    PollMore(e, line, k0, k);
    if found {
      k := k + 1;
      ks := k;
      out, k, ts := ReadBits(e, line, k, f, baud, rx);
    }
  }

  lemma NoSamples(e: End, f: nat, baud: nat, k0: nat)
    requires baud > 0
    ensures Samples(e, f, baud, k0, []) && Pow2(8) == 256
  {
  }

  /** The samples of a byte, counted from the reference reading k0. */
  method ReadBits(e: End, line: Line, k0: nat, f: nat, baud: nat, rx: array<nat>)
    returns (out: Outcome, k: nat, ghost ts: seq<nat>)
    requires e.Runs() && Rates(f, baud) && baud > 0 && HalfBit(f, baud, e.step) && RxReady(f, baud, rx[..])
    ensures k > k0 && out != TimedOut && Samples(e, f, baud, k0, ts)
    ensures out == Glitch ==> |ts| == 1 && line(ts[0])
    ensures out.Byte? ==>
            |ts| == 9 && !line(ts[0]) && out.value as int == ValueOf(line, ts) && Waited(e, k0, RxAt(f, baud, 9), k)
  {
    hide *;
    NoSamples(e, f, baud, k0);
    RxIs(f, baud, rx[..], 0);
    SampleReady(e, f, baud, k0, k0, 0);
    k := WaitFor(e, k0, k0, rx[0]);
    SampleMore(e, f, baud, line, k0, [], k);
    ts := [] + [e.pin(k)];
    out := Glitch;
    if !line(e.pin(k)) {
      var val: nat, i: nat := 0, 0;
      while i < 8
        invariant i <= 8 && |ts| == i + 1 && Samples(e, f, baud, k0, ts) && !line(ts[0])
        invariant k > k0 && Waited(e, k0, RxAt(f, baud, i), k) && val == ValueOf(line, ts)
      {
        RxIs(f, baud, rx[..], i + 1);
        SampleReady(e, f, baud, k0, k, i + 1);
        k := WaitFor(e, k0, k, rx[i + 1]);
        SampleMore(e, f, baud, line, k0, ts, k);
        val := val + (if line(e.pin(k)) then Pow2(i) else 0);
        ts := ts + [e.pin(k)];
        i := i + 1;
      }
      ValueBound(line, ts);
      RxIs(f, baud, rx[..], 9);
      SampleReady(e, f, baud, k0, k, 9);
      k := WaitFor(e, k0, k, rx[9]);
      out := Byte(val);
    }
  }

  // ----- a frame on the line is read -----

  /** The line follows the edges of a frame: high from `from` on, and to `until` after the stop bit. */
  ghost predicate OnLine(line: Line, es: seq<Edge>, from: nat, until: nat) {
    && |es| == 10
    && (forall t :: from <= t < es[0].time ==> line(t))
    && (forall j, t: nat :: 0 <= j < 9 && es[j].time <= t < es[j + 1].time ==> line(t) == es[j].level)
    && (forall t :: es[9].time <= t < until ==> line(t))
  }

  /** All that is late adds up: an edge, the poll that sees the start edge, and a sample. */
  function Late(tstep: nat, rstep: nat): nat { 2 * tstep + 4 * rstep }

  /** Polls that saw the line high came before the start edge. */
  lemma {:induction false} PollsBefore(e: End, line: Line, k0: nat, k: nat, es: seq<Edge>, from: nat, until: nat)
    requires e.Runs() && OnLine(line, es, from, until) && !es[0].level && es[0].time + 2 * e.step < es[1].time
    requires from <= e.clock(k0) <= es[0].time && Polled(e, line, k0, k) && k > k0
    ensures from <= e.pin(k - 1) < es[0].time
  {
    TickOf(e, k - 1);
    if k - 1 > k0 {
      assert Polled(e, line, k0, k - 1);
      PollsBefore(e, line, k0, k - 1, es, from, until);
      TickOf(e, k - 2);
    }
    assert line(e.pin(k - 1));
    LowAtStart(line, es, from, until);
  }

  lemma LowAtStart(line: Line, es: seq<Edge>, from: nat, until: nat)
    requires OnLine(line, es, from, until) && !es[0].level
    ensures forall t: nat :: es[0].time <= t < es[1].time ==> !line(t)
  {
    forall t: nat | es[0].time <= t < es[1].time
      ensures !line(t)
    {
      SampleLevel(line, es, from, until, 0, t);
    }
  }

  /** The reference reading comes soon after the start edge. */
  lemma Detected(e: End, line: Line, k0: nat, ks: nat, es: seq<Edge>, from: nat, until: nat)
    requires e.Runs() && OnLine(line, es, from, until) && !es[0].level && es[0].time + 2 * e.step < es[1].time
    requires from <= e.clock(k0) <= es[0].time && ks > k0 && Polled(e, line, k0, ks - 1) && !line(e.pin(ks - 1))
    ensures es[0].time <= e.clock(ks) <= es[0].time + 2 * e.step
  {
    TickOf(e, ks - 1);
    if ks - 1 > k0 {
      PollsBefore(e, line, k0, ks - 1, es, from, until);
      TickOf(e, ks - 2);
    }
    assert !(from <= e.pin(ks - 1) < es[0].time);
  }

  /** It is seen before the timeout. */
  lemma InTime(e: End, line: Line, k0: nat, k: nat, timeout: nat, es: seq<Edge>, from: nat, until: nat)
    requires e.Runs() && OnLine(line, es, from, until) && !es[0].level && es[0].time + 2 * e.step < es[1].time
    requires from <= e.clock(k0) <= es[0].time && es[0].time + e.step <= e.clock(k0) + timeout
    requires k > k0 && Polled(e, line, k0, k)
    ensures e.clock(k) <= e.clock(k0) + timeout
  {
    PollsBefore(e, line, k0, k, es, from, until);
    TickOf(e, k - 1);
  }

  lemma FrameEdge(f: nat, baud: nat, t0: nat, late: nat, data: byte, es: seq<Edge>, j: nat)
    requires baud > 0 && Frame(f, baud, t0, late, data, es) && j < |es|
    ensures es[j].level == LevelOf(data, j)
    ensures var due := t0 + (if j == 0 then 0 else TxAt(f, baud, j - 1));
            due <= es[j].time <= due + late
  {
  }

  lemma SampleAt(e: End, f: nat, baud: nat, k0: nat, ts: seq<nat>, j: nat)
    requires baud > 0 && Samples(e, f, baud, k0, ts) && j < |ts|
    ensures e.clock(k0) + RxAt(f, baud, j) <= ts[j] <= e.clock(k0) + RxAt(f, baud, j) + 2 * e.step
  {
  }

  /** Every sample falls inside its own bit cell. */
  lemma InCell(e: End, f: nat, baud: nat, t0: nat, tstep: nat, data: byte, es: seq<Edge>, ks: nat, ts: seq<nat>, j: nat)
    requires baud > 0 && HalfBit(f, baud, Late(tstep, e.step)) && |es| == 10 && j < |ts| <= 9
    requires Frame(f, baud, t0, 2 * tstep, data, es) && Samples(e, f, baud, ks, ts)
    requires es[0].time <= e.clock(ks) <= es[0].time + 2 * e.step
    ensures es[j].time <= ts[j] < es[j + 1].time
  {
    hide *;
    LateIs(tstep, e.step);
    FrameEdge(f, baud, t0, 2 * tstep, data, es, 0);
    FrameEdge(f, baud, t0, 2 * tstep, data, es, j);
    FrameEdge(f, baud, t0, 2 * tstep, data, es, j + 1);
    SampleAt(e, f, baud, ks, ts, j);
    Gaps(f, baud, j, Late(tstep, e.step));
    if j > 0 { Gaps(f, baud, j - 1, Late(tstep, e.step)); }
  }

  lemma LateIs(tstep: nat, rstep: nat)
    ensures Late(tstep, rstep) == 2 * tstep + 4 * rstep
  {
  }

  lemma SampleLevel(line: Line, es: seq<Edge>, from: nat, until: nat, j: nat, t: nat)
    requires OnLine(line, es, from, until) && j < 9 && es[j].time <= t < es[j + 1].time
    ensures line(t) == es[j].level
  {
  }

  lemma {:induction false} ValueIsData(line: Line, ts: seq<nat>, data: byte)
    requires 1 <= |ts| <= 9 && forall j :: 1 <= j < |ts| ==> line(ts[j]) == BitOf(data, j - 1)
    ensures ValueOf(line, ts) == data % Pow2(|ts| - 1)
  {
    hide BitOf;
    if |ts| > 1 {
      ValueIsData(line, ts[..|ts| - 1], data);
      NextBit(data, |ts| - 2);
    } else {
      PowOne();
    }
  }

  lemma PowOne()
    ensures Pow2(0) == 1 && Pow2(8) == 256
  {
  }

  /** The frame in front of a reader that is ready: it sees the start edge in time. */
  ghost predicate Ahead(e: End, f: nat, baud: nat, line: Line, k0: nat, timeout: nat, t0: nat, tstep: nat,
                        data: byte, es: seq<Edge>, from: nat, until: nat)
    requires baud > 0
  {
    && Frame(f, baud, t0, 2 * tstep, data, es) && OnLine(line, es, from, until)
    && from <= e.clock(k0) <= es[0].time && es[0].time + e.step <= e.clock(k0) + timeout
  }

  lemma AheadIs(e: End, f: nat, baud: nat, line: Line, k0: nat, timeout: nat, t0: nat, tstep: nat, data: byte,
                es: seq<Edge>, from: nat, until: nat)
    requires baud > 0 && Ahead(e, f, baud, line, k0, timeout, t0, tstep, data, es, from, until)
    requires HalfBit(f, baud, Late(tstep, e.step))
    ensures |es| == 10 && Frame(f, baud, t0, 2 * tstep, data, es) && OnLine(line, es, from, until)
    ensures from <= e.clock(k0) <= es[0].time && es[0].time + e.step <= e.clock(k0) + timeout
    ensures !es[0].level && es[0].time + 2 * e.step < es[1].time
  {
    hide Frame, HalfBit, TxAt, RxAt;
    FrameEdge(f, baud, t0, 2 * tstep, data, es, 0);
    FrameEdge(f, baud, t0, 2 * tstep, data, es, 1);
    Gaps(f, baud, 0, Late(tstep, e.step));
  }

  /** softuart_read_byte on a frame of softuart_write_byte: the byte, and the reader is done before
      the stop bit is over. */
  lemma FrameIsRead(e: End, f: nat, baud: nat, line: Line, k0: nat, timeout: nat, t0: nat, tstep: nat, data: byte,
                    es: seq<Edge>, from: nat, until: nat, out: Outcome, k: nat, ks: nat, ts: seq<nat>)
    requires e.Runs() && baud > 0 && HalfBit(f, baud, Late(tstep, e.step))
    requires Ahead(e, f, baud, line, k0, timeout, t0, tstep, data, es, from, until)
    requires k > k0
    requires out == TimedOut ==> Polled(e, line, k0, k) && e.clock(k) > e.clock(k0) + timeout
    requires out != TimedOut ==>
             ks > k0 && Polled(e, line, k0, ks - 1) && !line(e.pin(ks - 1)) && Samples(e, f, baud, ks, ts)
    requires out == Glitch ==> |ts| == 1 && line(ts[0])
    requires out.Byte? ==> |ts| == 9 && !line(ts[0]) && out.value as int == ValueOf(line, ts)
    requires out.Byte? ==> k > ks && Waited(e, ks, RxAt(f, baud, 9), k)
    ensures out == Byte(data)
    ensures |es| == 10 && es[9].time <= e.clock(k) && e.clock(k) + e.step < t0 + TxAt(f, baud, 9)
    ensures es[0].time + RxAt(f, baud, 9) <= e.clock(k)
  {
    hide *;
    AheadIs(e, f, baud, line, k0, timeout, t0, tstep, data, es, from, until);
    if out == TimedOut {
      InTime(e, line, k0, k, timeout, es, from, until);
    } else {
      Detected(e, line, k0, ks, es, from, until);
      InCell(e, f, baud, t0, tstep, data, es, ks, ts, 0);
      SampleLevel(line, es, from, until, 0, ts[0]);
      BitsRead(e, f, baud, line, t0, tstep, data, es, from, until, ks, ts);
      PowOne();
      Finished(e, f, baud, t0, tstep, data, es, ks, k);
    }
  }

  lemma BitsRead(e: End, f: nat, baud: nat, line: Line, t0: nat, tstep: nat, data: byte, es: seq<Edge>, from: nat,
                 until: nat, ks: nat, ts: seq<nat>)
    requires baud > 0 && HalfBit(f, baud, Late(tstep, e.step)) && 1 <= |ts| <= 9
    requires Frame(f, baud, t0, 2 * tstep, data, es) && OnLine(line, es, from, until) && Samples(e, f, baud, ks, ts)
    requires |es| == 10 && es[0].time <= e.clock(ks) <= es[0].time + 2 * e.step
    ensures ValueOf(line, ts) == data % Pow2(|ts| - 1)
  {
    hide *;
    forall j | 1 <= j < |ts|
      ensures line(ts[j]) == BitOf(data, j - 1)
    {
      InCell(e, f, baud, t0, tstep, data, es, ks, ts, j);
      SampleLevel(line, es, from, until, j, ts[j]);
      FrameEdge(f, baud, t0, 2 * tstep, data, es, j);
      DataLevel(data, j);
    }
    ValueIsData(line, ts, data);
  }

  lemma DataLevel(data: byte, j: nat)
    requires 1 <= j <= 8
    ensures LevelOf(data, j) == BitOf(data, j - 1)
  {
  }

  lemma Finished(e: End, f: nat, baud: nat, t0: nat, tstep: nat, data: byte, es: seq<Edge>, ks: nat, k: nat)
    requires baud > 0 && HalfBit(f, baud, Late(tstep, e.step)) && |es| == 10
    requires Frame(f, baud, t0, 2 * tstep, data, es)
    requires es[0].time <= e.clock(ks) <= es[0].time + 2 * e.step
    ensures Waited(e, ks, RxAt(f, baud, 9), k) ==>
            && es[9].time <= e.clock(k) && e.clock(k) + e.step < t0 + TxAt(f, baud, 9)
            && es[0].time + RxAt(f, baud, 9) <= e.clock(k)
  {
    hide *;
    LateIs(tstep, e.step);
    FrameEdge(f, baud, t0, 2 * tstep, data, es, 0);
    FrameEdge(f, baud, t0, 2 * tstep, data, es, 9);
    Gaps(f, baud, 9, Late(tstep, e.step));
    Gaps(f, baud, 8, Late(tstep, e.step));
    WaitedIs(e, ks, RxAt(f, baud, 9), k);
  }

  lemma WaitedIs(e: End, k0: nat, deadline: nat, k: nat)
    ensures Waited(e, k0, deadline, k) <==> e.clock(k0) + deadline <= e.clock(k) <= e.clock(k0) + deadline + e.step
  {
  }

  // ----- messages -----

  /** The level of a line driven by edges in order of time; it idles high. */
  predicate LevelAt(es: seq<Edge>, t: nat) {
    if es == [] then true
    else if es[|es| - 1].time <= t then es[|es| - 1].level
    else LevelAt(es[..|es| - 1], t)
  }

  ghost predicate Sorted(es: seq<Edge>) {
    forall i, j :: 0 <= i < j < |es| ==> es[i].time < es[j].time
  }

  lemma {:induction false} LevelBetween(es: seq<Edge>, i: nat, t: nat)
    requires Sorted(es) && i < |es| && es[i].time <= t && (i + 1 < |es| ==> t < es[i + 1].time)
    ensures LevelAt(es, t) == es[i].level
  {
    if i + 1 < |es| {
      assert es[|es| - 1].time > t;
      LevelBetween(es[..|es| - 1], i, t);
    }
  }

  lemma {:induction false} LevelBefore(es: seq<Edge>, t: nat)
    requires Sorted(es) && (es != [] ==> t < es[0].time)
    ensures LevelAt(es, t)
  {
    if es != [] { LevelBefore(es[..|es| - 1], t); }
  }

  /** Frame j of a message: its edges, and where it starts. */
  ghost predicate FrameOf(f: nat, baud: nat, tstep: nat, msg: seq<byte>, es: seq<Edge>, ss: seq<nat>, j: nat)
    requires baud > 0
  {
    && j < |msg| && j < |ss| && 10 * j + 10 <= |es|
    && Frame(f, baud, ss[j], 2 * tstep, msg[j], es[10 * j..10 * j + 10])
  }

  /** The edges of a message: a frame for each byte, the next starting when the stop bit is over. */
  ghost predicate Sent(f: nat, baud: nat, tstep: nat, msg: seq<byte>, es: seq<Edge>, ss: seq<nat>)
    requires baud > 0
  {
    && |ss| == |msg| && |es| == 10 * |msg|
    && (forall j :: 0 <= j < |msg| ==> FrameOf(f, baud, tstep, msg, es, ss, j))
    && (forall j :: 0 < j < |msg| ==> ss[j - 1] + TxAt(f, baud, 9) <= ss[j] <= ss[j - 1] + TxAt(f, baud, 9) + 2 * tstep)
  }

  lemma SentMore(f: nat, baud: nat, tstep: nat, msg: seq<byte>, n: nat, es: seq<Edge>, ss: seq<nat>, t0: nat,
                 fr: seq<Edge>)
    requires baud > 0 && n < |msg| && Sent(f, baud, tstep, msg[..n], es, ss)
    requires |fr| == 10 && Frame(f, baud, t0, 2 * tstep, msg[n], fr)
    requires n > 0 ==> ss[n - 1] + TxAt(f, baud, 9) <= t0 <= ss[n - 1] + TxAt(f, baud, 9) + 2 * tstep
    ensures Sent(f, baud, tstep, msg[..n + 1], es + fr, ss + [t0])
  {
    hide Frame, TxAt;
    var es', ss', m := es + fr, ss + [t0], msg[..n + 1];
    forall j | 0 <= j < |m|
      ensures FrameOf(f, baud, tstep, m, es', ss', j)
    {
      if j < n {
        assert FrameOf(f, baud, tstep, msg[..n], es, ss, j);
        assert es'[10 * j..10 * j + 10] == es[10 * j..10 * j + 10];
      } else {
        assert es'[10 * j..10 * j + 10] == fr;
      }
    }
  }

  lemma SentNothing(f: nat, baud: nat, tstep: nat, msg: seq<byte>)
    requires baud > 0
    ensures Sent(f, baud, tstep, msg[..0], [], []) && msg[..|msg|] == msg
  {
  }

  /** softuart_write: all the bytes of a message. */
  method WriteAll(e: End, k0: nat, f: nat, baud: nat, tx: array<nat>, msg: seq<byte>)
    returns (es: seq<Edge>, ghost ss: seq<nat>)
    requires e.Runs() && Rates(f, baud) && baud > 0 && HalfBit(f, baud, e.step) && TxReady(f, baud, tx[..])
    ensures Sent(f, baud, e.step, msg, es, ss)
    ensures msg != [] ==> |ss| > 0 && ss[0] == e.clock(k0)
  {
    hide *;
    SentNothing(f, baud, e.step, msg);
    es, ss := [], [];
    var k, n: nat := k0, 0;
    while n < |msg|
      invariant n <= |msg| && |ss| == n && Sent(f, baud, e.step, msg[..n], es, ss) && (n > 0 ==> ss[0] == e.clock(k0))
      invariant n == 0 ==> k == k0
      invariant n > 0 ==> ss[n - 1] + TxAt(f, baud, 9) <= e.clock(k) <= ss[n - 1] + TxAt(f, baud, 9) + 2 * e.step
    {
      ghost var t0, kb := e.clock(k), k;
      var fr;
      k, fr := WriteByte(e, k, f, baud, tx, msg[n]);
      SentMore(f, baud, e.step, msg, n, es, ss, t0, fr);
      FrameEnd(e, f, baud, kb, k);
      TickOf(e, k);
      k := k + 1;
      es, ss := es + fr, ss + [t0];
      n := n + 1;
    }
  }

  lemma FrameEnd(e: End, f: nat, baud: nat, k0: nat, k: nat)
    requires baud > 0 && Waited(e, k0, TxAt(f, baud, 9), k)
    ensures e.clock(k0) + TxAt(f, baud, 9) <= e.clock(k) <= e.clock(k0) + TxAt(f, baud, 9) + e.step
  {
  }

  lemma FrameIn(f: nat, baud: nat, tstep: nat, msg: seq<byte>, es: seq<Edge>, ss: seq<nat>, j: nat)
    requires baud > 0 && Sent(f, baud, tstep, msg, es, ss) && j < |msg|
    ensures |ss| == |msg| && |es| == 10 * |msg| && 10 * j + 10 <= |es|
    ensures Frame(f, baud, ss[j], 2 * tstep, msg[j], es[10 * j..10 * j + 10])
    ensures j > 0 ==> ss[j - 1] + TxAt(f, baud, 9) <= ss[j] <= ss[j - 1] + TxAt(f, baud, 9) + 2 * tstep
  {
    assert FrameOf(f, baud, tstep, msg, es, ss, j);
  }

  /** When edge i of a message comes. */
  lemma EdgeIn(f: nat, baud: nat, tstep: nat, msg: seq<byte>, es: seq<Edge>, ss: seq<nat>, j: nat, i: nat)
    requires baud > 0 && Sent(f, baud, tstep, msg, es, ss) && j < |msg| && i < 10
    ensures |ss| == |msg| && 10 * j + i < |es|
    ensures es[10 * j + i].level == LevelOf(msg[j], i)
    ensures var due := ss[j] + (if i == 0 then 0 else TxAt(f, baud, i - 1));
            due <= es[10 * j + i].time <= due + 2 * tstep
  {
    hide Sent, Frame;
    FrameIn(f, baud, tstep, msg, es, ss, j);
    FrameEdge(f, baud, ss[j], 2 * tstep, msg[j], es[10 * j..10 * j + 10], i);
  }

  lemma NextEdgeLater(f: nat, baud: nat, tstep: nat, rstep: nat, msg: seq<byte>, es: seq<Edge>, ss: seq<nat>, i: nat)
    requires baud > 0 && HalfBit(f, baud, Late(tstep, rstep)) && Sent(f, baud, tstep, msg, es, ss) && i + 1 < |es|
    ensures es[i].time < es[i + 1].time
  {
    SentSize(f, baud, tstep, msg, es, ss);
    hide *;
    LateIs(tstep, rstep);
    var j, r := i / 10, i % 10;
    EdgeIn(f, baud, tstep, msg, es, ss, j, r);
    if r < 9 {
      EdgeIn(f, baud, tstep, msg, es, ss, j, r + 1);
      Gaps(f, baud, r, Late(tstep, rstep));
      if r > 0 { Gaps(f, baud, r - 1, Late(tstep, rstep)); }
    } else {
      EdgeIn(f, baud, tstep, msg, es, ss, j + 1, 0);
      FrameIn(f, baud, tstep, msg, es, ss, j + 1);
      Gaps(f, baud, 8, Late(tstep, rstep));
      Gaps(f, baud, 9, Late(tstep, rstep));
    }
  }

  lemma SentSize(f: nat, baud: nat, tstep: nat, msg: seq<byte>, es: seq<Edge>, ss: seq<nat>)
    requires baud > 0 && Sent(f, baud, tstep, msg, es, ss)
    ensures |ss| == |msg| && |es| == 10 * |msg|
  {
  }

  lemma {:induction false} SortedFrom(es: seq<Edge>)
    requires forall i: nat :: i + 1 < |es| ==> es[i].time < es[i + 1].time
    ensures Sorted(es)
  {
    if |es| > 1 {
      var t := es[..|es| - 1];
      SortedFrom(t);
      forall i, j | 0 <= i < j < |es|
        ensures es[i].time < es[j].time
      {
        if j == |es| - 1 {
          assert es[j - 1].time < es[j].time;
          if i < j - 1 { assert t[i].time < t[j - 1].time; }
        } else {
          assert t[i].time < t[j].time;
        }
      }
    }
  }

  lemma SentSorted(f: nat, baud: nat, tstep: nat, rstep: nat, msg: seq<byte>, es: seq<Edge>, ss: seq<nat>)
    requires baud > 0 && HalfBit(f, baud, Late(tstep, rstep)) && Sent(f, baud, tstep, msg, es, ss)
    ensures Sorted(es)
  {
    hide *;
    forall i: nat | i + 1 < |es|
      ensures es[i].time < es[i + 1].time
    {
      NextEdgeLater(f, baud, tstep, rstep, msg, es, ss, i);
    }
    SortedFrom(es);
  }

  /** The line between two messages' ends. */
  ghost predicate Follows(line: Line, es: seq<Edge>) {
    forall t: nat :: line(t) == LevelAt(es, t)
  }

  lemma LineBetween(line: Line, es: seq<Edge>, i: nat, t: nat)
    requires Sorted(es) && Follows(line, es) && i < |es| && es[i].time <= t && (i + 1 < |es| ==> t < es[i + 1].time)
    ensures line(t) == es[i].level
  {
    hide Sorted, LevelAt;
    LevelBetween(es, i, t);
  }

  lemma LineBefore(line: Line, es: seq<Edge>, t: nat)
    requires Sorted(es) && Follows(line, es) && (es != [] ==> t < es[0].time)
    ensures line(t)
  {
    hide Sorted, LevelAt;
    LevelBefore(es, t);
  }

  /** Where frame j has the line to itself: from the stop bit before it to the start bit after it. */
  ghost function FrameFrom(es: seq<Edge>, j: nat): nat
    requires 10 * j + 10 <= |es|
  {
    if j == 0 then 0 else es[10 * j - 1].time
  }

  ghost function FrameUntil(es: seq<Edge>, j: nat): nat
    requires 10 * j + 10 <= |es|
  {
    if 10 * j + 10 < |es| then es[10 * j + 10].time else es[10 * j + 9].time
  }

  lemma OnLineFrom(line: Line, es: seq<Edge>, o: nat, from: nat, until: nat)
    requires o + 10 <= |es|
    requires forall t :: from <= t < es[o].time ==> line(t)
    requires forall j, t: nat :: o <= j < o + 9 && es[j].time <= t < es[j + 1].time ==> line(t) == es[j].level
    requires forall t :: es[o + 9].time <= t < until ==> line(t)
    ensures OnLine(line, es[o..o + 10], from, until)
  {
    var fr := es[o..o + 10];
    forall j, t: nat | 0 <= j < 9 && fr[j].time <= t < fr[j + 1].time
      ensures line(t) == fr[j].level
    {
      assert es[o + j].time <= t < es[(o + j) + 1].time;
    }
  }

  /** Each frame of a message is on the line the message drives. */
  lemma FrameOnLine(line: Line, es: seq<Edge>, j: nat)
    requires Sorted(es) && Follows(line, es) && 10 * j + 10 <= |es| && es[10 * j + 9].level
    requires j > 0 ==> es[10 * j - 1].level
    ensures OnLine(line, es[10 * j..10 * j + 10], FrameFrom(es, j), FrameUntil(es, j))
  {
    hide Sorted, Follows, OnLine;
    var o := 10 * j;
    forall i, t: nat | o <= i < o + 9 && es[i].time <= t < es[i + 1].time
      ensures line(t) == es[i].level
    {
      LineBetween(line, es, i, t);
    }
    forall t | es[o + 9].time <= t < FrameUntil(es, j)
      ensures line(t)
    {
      LineBetween(line, es, o + 9, t);
    }
    forall t: nat | FrameFrom(es, j) <= t < es[o].time
      ensures line(t)
    {
      if j == 0 { LineBefore(line, es, t); } else { LineBetween(line, es, o - 1, t); }
    }
    OnLineFrom(line, es, o, FrameFrom(es, j), FrameUntil(es, j));
  }

  /** The reader is ready for frame j: it began to poll in the stop bit before it, and its timeout
      is long enough. */
  ghost predicate ReadyFor(e: End, k: nat, timeout: nat, es: seq<Edge>, j: nat) {
    10 * j + 10 <= |es| ==>
      FrameFrom(es, j) <= e.clock(k) <= es[10 * j].time && es[10 * j].time + e.step <= e.clock(k) + timeout
  }

  lemma FrameAhead(e: End, f: nat, baud: nat, line: Line, k: nat, timeout: nat, tstep: nat, msg: seq<byte>,
                   es: seq<Edge>, ss: seq<nat>, j: nat)
    requires baud > 0 && HalfBit(f, baud, Late(tstep, e.step)) && Sent(f, baud, tstep, msg, es, ss) && Follows(line, es)
    requires j < |msg| && ReadyFor(e, k, timeout, es, j)
    ensures |ss| == |msg| && 10 * j + 10 <= |es|
    ensures Ahead(e, f, baud, line, k, timeout, ss[j], tstep, msg[j], es[10 * j..10 * j + 10], FrameFrom(es, j),
                  FrameUntil(es, j))
  {
    hide Sent, HalfBit, Follows, Frame, OnLine;
    SentSorted(f, baud, tstep, e.step, msg, es, ss);
    FrameIn(f, baud, tstep, msg, es, ss, j);
    EdgeIn(f, baud, tstep, msg, es, ss, j, 9);
    if j > 0 { EdgeIn(f, baud, tstep, msg, es, ss, j - 1, 9); }
    FrameOnLine(line, es, j);
  }

  /** Having read frame j, the reader is ready for the next one. */
  lemma NextReady(e: End, f: nat, baud: nat, k: nat, timeout: nat, tstep: nat, msg: seq<byte>, es: seq<Edge>,
                  ss: seq<nat>, j: nat)
    requires e.Runs() && baud > 0 && HalfBit(f, baud, Late(tstep, e.step)) && Sent(f, baud, tstep, msg, es, ss)
             && j < |msg|
    requires TxAt(f, baud, 9) <= timeout && |ss| == |msg| && 10 * j + 10 <= |es|
    requires es[10 * j + 9].time <= e.clock(k) && e.clock(k) + e.step < ss[j] + TxAt(f, baud, 9)
    requires es[10 * j].time + RxAt(f, baud, 9) <= e.clock(k)
    ensures ReadyFor(e, k + 1, timeout, es, j + 1)
  {
    SentSize(f, baud, tstep, msg, es, ss);
    hide Sent, HalfBit, TxAt, RxAt, Late;
    TickOf(e, k);
    if j + 1 < |msg| {
      LateIs(tstep, e.step);
      EdgeIn(f, baud, tstep, msg, es, ss, j + 1, 0);
      EdgeIn(f, baud, tstep, msg, es, ss, j, 0);
      FrameIn(f, baud, tstep, msg, es, ss, j + 1);
      Gaps(f, baud, 8, Late(tstep, e.step));
    }
  }

  /** Reading n bytes, as tmc_uart_read does: it stops at the first that fails. */
  method ReadAll(e: End, line: Line, k0: nat, f: nat, baud: nat, rx: array<nat>, timeout: nat, n: nat,
                 ghost tstep: nat, ghost msg: seq<byte>, ghost es: seq<Edge>, ghost ss: seq<nat>)
    returns (ok: bool, got: seq<byte>)
    requires e.Runs() && Rates(f, baud) && baud > 0 && HalfBit(f, baud, Late(tstep, e.step)) && HalfBit(f, baud, e.step)
    requires RxReady(f, baud, rx[..]) && TxAt(f, baud, 9) <= timeout && timeout + e.step < WRAP
    requires Sent(f, baud, tstep, msg, es, ss) && Follows(line, es) && n == |msg| && ReadyFor(e, k0, timeout, es, 0)
    ensures ok && got == msg
  {
    hide *;
    WrapIs();
    ok, got := true, [];
    var k, j: nat := k0, 0;
    while ok && j < n
      invariant j <= n && ok && got == msg[..j] && ReadyFor(e, k, timeout, es, j)
    {
      FrameAhead(e, f, baud, line, k, timeout, tstep, msg, es, ss, j);
      ghost var ks, ts;
      var out, next;
      out, next, ks, ts := ReadByte(e, line, k, f, baud, rx, timeout);
      FrameIsRead(e, f, baud, line, k, timeout, ss[j], tstep, msg[j], es[10 * j..10 * j + 10], FrameFrom(es, j),
                  FrameUntil(es, j), out, next, ks, ts);
      NextReady(e, f, baud, next, timeout, tstep, msg, es, ss, j);
      match out {
        case Byte(value) =>
          got := got + [value];
        case _ =>
          ok := false;
      }
      k := next + 1;
      j := j + 1;
    }
    WholeSlice(msg);
  }

  lemma MoreLate(f: nat, baud: nat, l: nat, m: nat)
    requires HalfBit(f, baud, m) && l <= m
    ensures HalfBit(f, baud, l)
  {
    MulLe(2 * baud, l + 1, m + 1);
  }

  /** A message written at one end and read at the other, whatever it is: with two steps of the
      writer and four of the reader, and one cycle for rounding, within half a bit, the reader gets
      every byte. The reader polls before the first edge; both counters may wrap at any time. */
  method RoundTrip(w: End, r: End, kw: nat, kr: nat, f: nat, baud: nat, timeout: nat, msg: seq<byte>)
    returns (ok: bool, got: seq<byte>)
    requires w.Runs() && r.Runs() && Rates(f, baud) && baud > 0 && HalfBit(f, baud, Late(w.step, r.step))
    requires TxAt(f, baud, 9) <= timeout && timeout + r.step < WRAP
    requires r.clock(kr) <= w.clock(kw) && w.clock(kw) + 2 * w.step + r.step <= r.clock(kr) + timeout
    ensures ok && got == msg
  {
    LateIs(w.step, r.step);
    MoreLate(f, baud, w.step, Late(w.step, r.step));
    MoreLate(f, baud, r.step, Late(w.step, r.step));
    hide *;
    Eleven();
    var tx, rx := new nat[11], new nat[11];
    TimingInit(f, baud, tx, rx);
    Deadlines(f, baud, tx, rx);
    ghost var ss;
    var es;
    es, ss := WriteAll(w, kw, f, baud, tx, msg);
    var line: Line := (t: nat) => LevelAt(es, t);
    FirstReady(w, r, kw, kr, f, baud, timeout, msg, es, ss, line);
    ok, got := ReadAll(r, line, kr, f, baud, rx, timeout, |msg|, w.step, msg, es, ss);
  }

  lemma Eleven()
    ensures N_BIT_DEADLINES == 11
  {
  }

  lemma Deadlines(f: nat, baud: nat, tx: array<nat>, rx: array<nat>)
    requires baud > 0 && tx.Length == N_BIT_DEADLINES == rx.Length
    requires forall n :: 0 <= n < N_BIT_DEADLINES ==> tx[n] == TxAt(f, baud, n) && rx[n] == RxAt(f, baud, n)
    ensures TxReady(f, baud, tx[..]) && RxReady(f, baud, rx[..])
  {
  }

  lemma FirstReady(w: End, r: End, kw: nat, kr: nat, f: nat, baud: nat, timeout: nat, msg: seq<byte>, es: seq<Edge>,
                   ss: seq<nat>, line: Line)
    requires baud > 0 && Sent(f, baud, w.step, msg, es, ss) && (msg != [] ==> |ss| > 0 && ss[0] == w.clock(kw))
    requires r.clock(kr) <= w.clock(kw) && w.clock(kw) + 2 * w.step + r.step <= r.clock(kr) + timeout
    requires line == ((t: nat) => LevelAt(es, t))
    ensures ReadyFor(r, kr, timeout, es, 0) && Follows(line, es)
  {
    SentSize(f, baud, w.step, msg, es, ss);
    hide Sent, LevelAt;
    if msg != [] {
      EdgeIn(f, baud, w.step, msg, es, ss, 0, 0);
    }
  }

  /** With 288 cycles a bit, which the code insists on, all latencies together may be 143 cycles. */
  lemma LatencyAtLimit(f: nat, baud: nat, l: nat)
    requires 288 * baud <= f && l <= 143
    ensures HalfBit(f, baud, l)
  {
    MulLe(2 * baud, l + 1, 144);
  }

  /** An end that reads its counter every 20 cycles is one the results speak about. */
  lemma SteadyEnd(offset: nat) returns (e: End)
    ensures e.Runs() && e.offset == offset && e.step == 20
  {
    e := End((k: nat) => 20 * k, (k: nat) => 20 * k + 10, offset, 20);
    forall k: nat
      ensures e.Ticks(k)
    {
    }
  }

  /** Two such ends on the board's clock and bit rate meet the bound of RoundTrip. */
  lemma BoardMeetsBound()
    ensures Rates(72_000_000, 19200) && HalfBit(72_000_000, 19200, Late(20, 20))
    ensures Rates(72_000_000, 250_000) && HalfBit(72_000_000, 250_000, Late(20, 20))
  {
  }
}
