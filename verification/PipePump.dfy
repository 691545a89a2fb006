/** The bounded process pump: one loop feeds a child its input and drains both of its
    outputs under hard caps and one deadline
    (scripts/private-sam-local-credentials.py:100-181). */
module PipePump {
  import opened JsValues
  import opened CredentialSlot

  const MAX_OUTPUT: nat := 8192
  const MAX_ERROR: nat := 4096
  const CHUNK: nat := 4096
  const PATIENCE: nat := 20_000_000

  datatype Source = Stdin | Stdout | Stderr

  /** One select: what it reports (anything not actually ready is ignored), in which
      order, how long it took, and whether the operating system failed. */
  datatype Tick = Tick(ready: seq<Source>, elapsed: nat, broken: bool)

  datatype Exit = Lingers | Exits(code: int, after: nat)

  datatype PumpError = TimedOut | Broken | Oversized

  datatype Completed = Completed(returncode: int, stdout: Bytes)

  function Min(a: nat, b: nat): nat {
    if a <= b then a else b
  }

  /** One output of the child with the buffer it is read into. `data` is everything
      the child ever writes there, and `ends` whether it then closes it. */
  class Reader {
    const data: Bytes
    const ends: bool
    const limit: nat
    var buffer: Bytes
    var open: bool

    ghost predicate Valid()
      reads this
    {
      buffer <= data && |buffer| <= limit && (!open ==> ends && buffer == data)
    }

    predicate Ready()
      reads this
    {
      open && (|buffer| < |data| || ends)
    }

    ghost function Left(): int
      reads this
    {
      limit + 1 - |buffer| + if open then 1 else 0
    }

    constructor (data: Bytes, ends: bool, limit: nat)
      ensures Valid() && open && buffer == [] && this.data == data && this.ends == ends && this.limit == limit
    {
      this.data, this.ends, this.limit := data, ends, limit;
      buffer, open := [], true;
    }

    /** os.read: up to `want` of the bytes not read yet; nothing for a request of zero
        bytes, and otherwise nothing only at the end. */
    function Next(want: nat, amount: nat): (chunk: Bytes)
      requires buffer <= data
      reads this
      ensures |chunk| <= want && buffer + chunk <= data
      ensures chunk == [] <==> want == 0 || |buffer| == |data|
    {
      var available := Min(want, |data| - |buffer|);
      var taken := if amount == 0 then Min(1, available) else Min(amount, available);
      var chunk := data[|buffer|..|buffer| + taken];
      assert buffer + chunk == data[..|buffer| + taken];
      chunk
    }

    /** One read event. It never asks for zero bytes, so an empty answer is the end of
        the stream, and it never holds more than one byte beyond the limit. */
    method Receive(amount: nat) returns (fits: bool)
      requires Valid() && Ready()
      modifies this
      ensures buffer <= data && |buffer| <= limit + 1 && Left() < old(Left())
      ensures fits ==> Valid()
      ensures !fits ==> |data| > limit
    {
      var chunk := Next(Min(CHUNK, limit + 1 - |buffer|), amount);
      if chunk == [] {
        open := false;
        return true;
      }
      buffer := buffer + chunk;
      fits := |buffer| <= limit;
    }

    method Discard()
      modifies this
      ensures buffer == [] && !open
    {
      buffer, open := [], false;
    }
  }

  class Pump {
    const value: Bytes
    const stdout: Reader
    const stderr: Reader
    const schedule: nat -> Tick
    /** How many bytes one transfer moves, if the other side has that many. */
    const amount: (nat, Source) -> nat
    const exit: Exit

    var stdinOpen: bool
    var offset: nat
    var clock: nat
    var tick: nat
    var killed: bool
    /** What the child has received. */
    ghost var received: Bytes
    /** The child stopped taking input before it had all of it. */
    ghost var cutShort: bool

    ghost predicate Valid()
      reads `stdinOpen, `offset, `received, `cutShort, `killed, stdout, stderr
    {
      && stdout != stderr && stdout.limit == MAX_OUTPUT && stderr.limit == MAX_ERROR
      && stdout.Valid() && stderr.Valid()
      && Delivered() && (stdinOpen ==> offset < |value|)
    }

    ghost predicate Delivered()
      reads `stdinOpen, `offset, `received, `cutShort, `killed
    {
      offset <= |value| && received == value[..offset] && (offset < |value| && !stdinOpen && !killed ==> cutShort)
    }

    predicate CanProceed(s: Source)
      reads `stdinOpen, stdout, stderr
    {
      match s
      case Stdin => stdinOpen
      case Stdout => stdout.Ready()
      case Stderr => stderr.Ready()
    }

    /** Bytes that can still move plus streams that are still open. */
    ghost function Left(): int
      reads `stdinOpen, `offset, stdout, stderr
    {
      |value| - offset + (if stdinOpen then 1 else 0) + stdout.Left() + stderr.Left()
    }

    constructor (value: Bytes, stdoutData: Bytes, stdoutEnds: bool, stderrData: Bytes, stderrEnds: bool,
                 schedule: nat -> Tick, amount: (nat, Source) -> nat, exit: Exit)
      ensures Valid() && fresh(stdout) && fresh(stderr)
      ensures this.value == value && this.schedule == schedule && this.amount == amount && this.exit == exit && !killed && !cutShort
      ensures stdout.data == stdoutData && stdout.ends == stdoutEnds && stderr.data == stderrData && stderr.ends == stderrEnds
      ensures stdout.open && stderr.open
    {
      this.value, this.schedule, this.amount, this.exit := value, schedule, amount, exit;
      stdout := new Reader(stdoutData, stdoutEnds, MAX_OUTPUT);
      stderr := new Reader(stderrData, stderrEnds, MAX_ERROR);
      stdinOpen, offset, clock, tick, killed := value != [], 0, 0, 0, false;
      received, cutShort := [], false;
    }

    /** One write event: a prefix of what is left goes out, in order. */
    method Send(amount: nat)
      requires Valid() && stdinOpen
      modifies `stdinOpen, `offset, `received, `cutShort
      ensures Valid() && offset >= old(offset)
      ensures amount > 0 ==> cutShort == old(cutShort)
      ensures |value| - offset + (if stdinOpen then 1 else 0) < |value| - old(offset) + 1
    {
      var chunk := value[offset..Min(offset + CHUNK, |value|)];
      var written := Min(amount, |chunk|);
      assert chunk[..written] == value[offset..offset + written];
      received := received + chunk[..written];
      assert received == value[..offset + written];
      offset := offset + written;
      if written == 0 || offset == |value| {
        cutShort := cutShort || offset < |value|;
        stdinOpen := false;
      }
    }

    /** Every abnormal exit: buffers cleared, child killed, streams closed. */
    method Abort()
      modifies this`killed, this`stdinOpen, stdout, stderr
      ensures killed && !stdinOpen && !stdout.open && !stderr.open && stdout.buffer == [] && stderr.buffer == []
      ensures old(Delivered()) ==> Delivered()
    {
      stdout.Discard();
      stderr.Discard();
      killed, stdinOpen := true, false;
    }

    /** One event of the n-th select, if its stream really is ready. */
    method Handle(s: Source, n: nat) returns (fits: bool)
      requires Valid()
      modifies this`stdinOpen, this`offset, this`received, this`cutShort, stdout, stderr
      ensures Delivered()
      ensures if old(CanProceed(s)) then fits ==> Valid() && Left() < old(Left()) else fits && unchanged(this, stdout, stderr)
      ensures !fits ==> |stdout.data| > MAX_OUTPUT || |stderr.data| > MAX_ERROR
      ensures amount(n, Stdin) > 0 ==> cutShort == old(cutShort)
    {
      fits := true;
      match s
      case Stdin =>
        if stdinOpen {
          Send(amount(n, Stdin));
        }
      case Stdout =>
        if stdout.Ready() {
          fits := stdout.Receive(amount(n, Stdout));
        }
      case Stderr =>
        if stderr.Ready() {
          fits := stderr.Receive(amount(n, Stderr));
        }
    }

    /** The events of the n-th select; `any` says that one of them is real. */
    method Dispatch(ready: seq<Source>, n: nat, ghost any: bool) returns (fits: bool)
      requires Valid() && (any ==> exists s :: s in ready && CanProceed(s))
      modifies this`stdinOpen, this`offset, this`received, this`cutShort, stdout, stderr
      ensures Delivered()
      ensures fits ==> Valid() && Left() <= old(Left()) && (any ==> Left() < old(Left()))
      ensures !fits ==> |stdout.data| > MAX_OUTPUT || |stderr.data| > MAX_ERROR
      ensures amount(n, Stdin) > 0 ==> cutShort == old(cutShort)
    {
      hide Valid, Left, CanProceed, Delivered;
      ghost var before := Left();
      ValidDelivers();
      for i := 0 to |ready|
        invariant Valid() && Delivered() && Left() <= before
        invariant amount(n, Stdin) > 0 ==> cutShort == old(cutShort)
        invariant any && Left() == before ==> exists k :: i <= k < |ready| && CanProceed(ready[k])
      {
        fits := Handle(ready[i], n);
        if !fits {
          return;
        }
      }
      fits := true;
    }

    lemma ValidDelivers()
      requires Valid()
      ensures Delivered()
    {}

    /** A child whose outputs fit and end, which exits in time, on a machine where
        everything is always ready. */
    ghost predicate Obliging() {
      && stdout.ends && |stdout.data| <= MAX_OUTPUT && stderr.ends && |stderr.data| <= MAX_ERROR
      && exit.Exits? && exit.after <= PATIENCE
      && forall k :: schedule(k) == Tick([Stdin, Stdout, Stderr], 0, false)
    }

    /** The child takes at least one byte whenever it is offered some. */
    ghost predicate Generous() {
      forall n, s :: amount(n, s) > 0
    }

    lemma GenerousFact(n: nat)
      ensures Generous() ==> amount(n, Stdin) > 0
    {}

    lemma ObligingFacts(n: nat)
      requires Obliging()
      ensures schedule(n) == Tick([Stdin, Stdout, Stderr], 0, false)
      ensures stdout.ends && |stdout.data| <= MAX_OUTPUT && stderr.ends && |stderr.data| <= MAX_ERROR
      ensures exit.Exits? && exit.after <= PATIENCE
    {}

    lemma SomethingIsReady(t: Tick)
      requires Valid() && (stdinOpen || stdout.open || stderr.open) && stdout.ends && stderr.ends
      requires t.ready == [Stdin, Stdout, Stderr]
      ensures exists s :: s in t.ready && CanProceed(s)
    {
      assert Stdin in t.ready && Stdout in t.ready && Stderr in t.ready;
      assert CanProceed(Stdin) || CanProceed(Stdout) || CanProceed(Stderr);
    }

    /** Both outputs have ended: wait for the child within the deadline. */
    method Finish(deadline: nat) returns (r: Result<Completed, PumpError>)
      requires !killed && !stdinOpen && !stdout.open && !stderr.open
      modifies this`killed, this`stdinOpen, stdout, stderr
      ensures stdout.buffer == [] && stderr.buffer == [] && !stdinOpen && !stdout.open && !stderr.open
      ensures killed <==> r.Err?
      ensures r.Ok? <==> clock < deadline && exit.Exits? && exit.after <= deadline - clock
      ensures r == if r.Ok? then Ok(Completed(exit.code, old(stdout.buffer))) else Err(TimedOut)
    {
      if clock >= deadline {
        Abort();
        return Err(TimedOut);
      }
      var output := stdout.buffer;
      if exit.Lingers? || exit.after > deadline - clock {
        Abort();
        return Err(TimedOut);
      }
      stdout.Discard();
      stderr.Discard();
      r := Ok(Completed(exit.code, output));
    }

    /** One round of the loop: it moves something, or waits until the deadline. */
    method Round(deadline: nat) returns (error: Option<PumpError>)
      requires Valid() && !killed && (stdinOpen || stdout.open || stderr.open)
      modifies this, stdout, stderr
      ensures error.None? ==>
                && Valid() && !killed && Left() <= old(Left()) && (Left() == old(Left()) ==> old(clock) < deadline <= clock)
      ensures error.Some? ==>
                && killed && Delivered() && stdout.buffer == [] && stderr.buffer == [] && !stdinOpen && !stdout.open && !stderr.open
      ensures error == Some(Oversized) ==> |stdout.data| > MAX_OUTPUT || |stderr.data| > MAX_ERROR
      ensures Obliging() && old(clock) < deadline ==> error.None? && clock == old(clock)
      ensures old(!cutShort) && Generous() ==> !cutShort
    {
      hide Obliging, Valid, Left, CanProceed, Delivered, Generous;
      ValidDelivers();
      GenerousFact(tick);
      if clock >= deadline {
        Abort();
        return Some(TimedOut);
      }
      var n := tick;
      tick := n + 1;
      var t := schedule(n);
      var any := exists s :: s in t.ready && CanProceed(s);
      if Obliging() {
        ObligingFacts(n);
        SomethingIsReady(t);
      }
      clock := clock + t.elapsed + if any then 0 else deadline - clock;
      if t.broken {
        Abort();
        return Some(Broken);
      }
      var fits := Dispatch(t.ready, n, any);
      if !fits {
        Abort();
        return Some(Oversized);
      }
      error := None;
    }

    /** _bounded_process: for every schedule it ends, and it ends well only with the
        child's complete output. */
    method Run() returns (r: Result<Completed, PumpError>)
      requires Valid() && !killed && stdout.open && stderr.open
      modifies this, stdout, stderr
      ensures received <= value
      ensures stdout.buffer == [] && stderr.buffer == [] && !stdinOpen && !stdout.open && !stderr.open
      ensures killed <==> r.Err?
      ensures r.Ok? ==>
                && stdout.ends && stderr.ends && exit.Exits?
                && r.value == Completed(exit.code, stdout.data)
                && |stdout.data| <= MAX_OUTPUT && |stderr.data| <= MAX_ERROR
                && (received == value || cutShort)
      ensures r == Err(Oversized) ==> |stdout.data| > MAX_OUTPUT || |stderr.data| > MAX_ERROR
      ensures Obliging() ==> r.Ok?
      ensures old(!cutShort) && Generous() ==> !cutShort
    {
      hide Obliging;
      var deadline := clock + PATIENCE;
      if Obliging() {
        ObligingFacts(tick);
      }
      while stdinOpen || stdout.open || stderr.open
        invariant Valid() && !killed && (Obliging() ==> clock == old(clock))
        invariant old(!cutShort) && Generous() ==> !cutShort
        decreases Left(), deadline - clock
      {
        var error := Round(deadline);
        if error.Some? {
          return Err(error.value);
        }
      }
      r := Finish(deadline);
    }

    /** _run: what the importer sees of one helper call. Its own size check repeats
        the pump's and cannot fail after it. */
    method RunHelper() returns (r: Result<Bytes, LocalError>, ghost completed: Option<Completed>)
      requires Valid() && !killed && stdout.open && stderr.open
      modifies this, stdout, stderr
      ensures r.Ok? ==> r.value == stdout.data && stdout.ends && |stdout.data| <= MAX_OUTPUT && exit.Exits? && exit.code == 0
      ensures r.Err? ==> r.error in {StoreUnavailable, StoreFailed}
      ensures r == Err(StoreUnavailable) ==> killed
      ensures completed.Some? ==> (r.Err? <==> completed.value.returncode != 0)
      ensures completed.None? ==> r.Err? && killed
      ensures r == Err(StoreFailed) ==> completed.Some? || |stdout.data| > MAX_OUTPUT || |stderr.data| > MAX_ERROR
    {
      var ended := Run();
      completed := None;
      match ended
      case Err(Oversized) => r := Err(StoreFailed);
      case Err(_) => r := Err(StoreUnavailable);
      case Ok(result) =>
        completed := Some(result);
        r := if result.returncode != 0 || |result.stdout| > MAX_OUTPUT then Err(StoreFailed) else Ok(result.stdout);
    }
  }
}
