/** The bounded queue between the layers: a ring buffer that refines a plain first-in-first-out list. */
module Fifo {
  import opened Bytes

  // ----- the plain queue --------------------------------------------------------------------------------------

  /** At most `capacity` items, the oldest first. */
  datatype Queue<T> = Queue(capacity: nat, items: seq<T>, interrupted: bool)

  datatype Op<T> = Put(x: T) | TryPut(x: T) | Get | GetTimeout(expired: bool) | Interrupt

  datatype Result<T> = Result(q: Queue<T>, accepted: seq<T>, removed: seq<T>, refused: bool)

  /** The locked region of an operation. A put into a full queue and a get from an empty one wait: the
      step is then not taken. */
  predicate Enabled<T>(q: Queue<T>, op: Op<T>) {
    match op
    case Put(_) => |q.items| < q.capacity
    case Get => q.items != [] || q.interrupted
    case GetTimeout(expired) => q.items != [] || q.interrupted || expired
    case _ => true
  }

  function Step<T>(q: Queue<T>, op: Op<T>): Result<T>
    requires Enabled(q, op)
  {
    match op
    case Put(x) => Result(q.(items := q.items + [x]), [x], [], false)
    case TryPut(x) =>
      if |q.items| == q.capacity then Result(q, [], [], true)
      else Result(q.(items := q.items + [x]), [x], [], false)
    case Interrupt => Result(q.(interrupted := true), [], [], false)
    case _ =>
      if q.interrupted || op == GetTimeout(true) then Result(q, [], [], false)
      else Result(q.(items := q.items[1..]), [], [q.items[0]], false)
  }

  /** `accepted` and `removed` are everything ever put in and taken out; what is held lies between. */
  datatype History<T> = History(q: Queue<T>, accepted: seq<T>, removed: seq<T>)

  /** Any interleaving of operations; one that would wait is passed over. */
  function Run<T>(h: History<T>, ops: seq<Op<T>>): History<T>
    decreases |ops|
  {
    if ops == [] then h
    else if !Enabled(h.q, ops[0]) then Run(h, ops[1..])
    else
      var r := Step(h.q, ops[0]);
      Run(History(r.q, h.accepted + r.accepted, h.removed + r.removed), ops[1..])
  }

  predicate Conserved<T(==)>(h: History<T>) {
    h.accepted == h.removed + h.q.items && |h.q.items| <= h.q.capacity
  }

  /** On every interleaving the values taken out, followed by those still held, are the values
      accepted, in order; and the queue never holds more than its capacity. */
  lemma {:induction false} RunConserves<T>(h: History<T>, ops: seq<Op<T>>)
    requires Conserved(h)
    ensures Conserved(Run(h, ops)) && Run(h, ops).q.capacity == h.q.capacity
    ensures h.removed <= Run(h, ops).removed && h.accepted <= Run(h, ops).accepted
    decreases |ops|
  {
    if ops != [] {
      if Enabled(h.q, ops[0]) {
        var r := Step(h.q, ops[0]);
        var h' := History(r.q, h.accepted + r.accepted, h.removed + r.removed);
        StepConserves(h, ops[0]);
        RunConserves(h', ops[1..]);
      } else {
        RunConserves(h, ops[1..]);
      }
    }
  }

  lemma StepConserves<T>(h: History<T>, op: Op<T>)
    requires Conserved(h) && Enabled(h.q, op)
    ensures var r := Step(h.q, op);
            Conserved(History(r.q, h.accepted + r.accepted, h.removed + r.removed)) && r.q.capacity == h.q.capacity
  {
    var r := Step(h.q, op);
    var items := h.q.items;
    if r.removed != [] {
      assert items == [items[0]] + items[1..];
      assert h.accepted + [] == h.accepted;
    } else if r.accepted != [] {
      assert h.removed + (items + r.accepted) == h.removed + items + r.accepted;
    } else {
      assert h.accepted + [] == h.accepted && h.removed + [] == h.removed;
    }
  }

  /** The values are offered one after the other, each by put or by try_put. */
  predicate Offers<T(==)>(ops: seq<Op<T>>, xs: seq<T>) {
    |ops| == |xs| && forall i | 0 <= i < |xs| :: ops[i] == Put(xs[i]) || ops[i] == TryPut(xs[i])
  }

  /** Gets without or with a timeout that does not expire. */
  predicate Asks<T(==)>(ops: seq<Op<T>>) {
    forall i | 0 <= i < |ops| :: ops[i] == Get || ops[i] == GetTimeout(false)
  }

  /** Of any values offered the queue takes the first ones, as many as there is room for; a put then waits, a try_put
      is refused. */
  lemma {:induction false} Fills<T>(h: History<T>, ops: seq<Op<T>>, xs: seq<T>)
    requires Conserved(h) && Offers(ops, xs)
    ensures var n := Min(|xs|, h.q.capacity - |h.q.items|);
            Run(h, ops).accepted == h.accepted + xs[..n] && Run(h, ops).removed == h.removed
    decreases |xs|
  {
    var n := Min(|xs|, h.q.capacity - |h.q.items|);
    if xs == [] {
      assert h.accepted + xs[..n] == h.accepted;
    } else {
      assert Offers(ops[1..], xs[1..]);
      if n > 0 {
        OfferTaken(h, ops[0], xs[0]);
        var h' := History(h.q.(items := h.q.items + [xs[0]]), h.accepted + [xs[0]], h.removed);
        Fills(h', ops[1..], xs[1..]);
        assert xs[..n] == [xs[0]] + xs[1..][..n - 1];
        assert h.accepted + [xs[0]] + xs[1..][..n - 1] == h.accepted + ([xs[0]] + xs[1..][..n - 1]);
        assert Run(h, ops) == Run(h', ops[1..]);
      } else {
        Fills(h, ops[1..], xs[1..]);
        assert h.accepted + [] == h.accepted && h.removed + [] == h.removed;
        assert xs[..0] == [] && xs[1..][..0] == [];
      }
    }
  }

  lemma OfferTaken<T>(h: History<T>, op: Op<T>, x: T)
    requires Conserved(h) && |h.q.items| < h.q.capacity && (op == Put(x) || op == TryPut(x))
    ensures Enabled(h.q, op)
    ensures var r := Step(h.q, op); var h' := History(r.q, h.accepted + r.accepted, h.removed + r.removed);
            h' == History(h.q.(items := h.q.items + [x]), h.accepted + [x], h.removed) && Conserved(h')
  {
    StepConserves(h, op);
    assert h.removed + [] == h.removed;
  }

  /** While nothing interrupts it, gets take the oldest values, one each, and wait when there are none. */
  lemma {:induction false} Drains<T>(h: History<T>, ops: seq<Op<T>>)
    requires !h.q.interrupted && Asks(ops)
    ensures var k := Min(|ops|, |h.q.items|);
            Run(h, ops).removed == h.removed + h.q.items[..k] && Run(h, ops).q.items == h.q.items[k..]
    decreases |ops|
  {
    hide Step, Enabled;
    var items := h.q.items;
    if ops == [] {
      assert h.removed + items[..0] == h.removed && items[0..] == items;
    } else {
      assert Asks(ops[1..]);
      if items == [] {
        GetWaits(h, ops);
        Drains(h, ops[1..]);
      } else {
        var h' := History(h.q.(items := items[1..]), h.accepted, h.removed + [items[0]]);
        GetTaken(h, ops);
        Drains(h', ops[1..]);
        FirstTaken(h.removed, items, Min(|ops|, |items|));
      }
    }
  }

  lemma GetWaits<T>(h: History<T>, ops: seq<Op<T>>)
    requires !h.q.interrupted && ops != [] && (ops[0] == Get || ops[0] == GetTimeout(false)) && h.q.items == []
    ensures Run(h, ops) == Run(h, ops[1..])
  {
  }

  lemma GetTaken<T>(h: History<T>, ops: seq<Op<T>>)
    requires !h.q.interrupted && ops != [] && (ops[0] == Get || ops[0] == GetTimeout(false)) && h.q.items != []
    ensures var items := h.q.items;
            Run(h, ops) == Run(History(h.q.(items := items[1..]), h.accepted, h.removed + [items[0]]), ops[1..])
  {
    assert h.accepted + [] == h.accepted;
  }

  lemma FirstTaken<T>(removed: seq<T>, items: seq<T>, k: nat)
    requires 0 < k <= |items|
    ensures removed + [items[0]] + items[1..][..k - 1] == removed + items[..k]
    ensures items[1..][k - 1..] == items[k..]
  {
    assert items[..k] == [items[0]] + items[1..][..k - 1];
  }

  lemma {:induction false} StaysInterrupted<T>(h: History<T>, ops: seq<Op<T>>)
    requires h.q.interrupted
    ensures Run(h, ops).removed == h.removed && Run(h, ops).q.interrupted && Enabled(h.q, Get)
    decreases |ops|
  {
    if ops != [] {
      if Enabled(h.q, ops[0]) {
        var r := Step(h.q, ops[0]);
        assert h.removed + [] == h.removed;
        StaysInterrupted(History(r.q, h.accepted + r.accepted, h.removed + r.removed), ops[1..]);
      } else {
        StaysInterrupted(h, ops[1..]);
      }
    }
  }

  /** From an interruption on a queue hands out nothing any more, and no get waits. */
  lemma Interrupted<T>(h: History<T>, ops: seq<Op<T>>)
    ensures Run(h, [Interrupt] + ops).removed == h.removed && Enabled(Run(h, [Interrupt] + ops).q, Get)
  {
    var all := [Interrupt] + ops;
    var r := Step(h.q, Interrupt);
    assert all[1..] == ops && h.removed + [] == h.removed;
    StaysInterrupted(History(r.q, h.accepted + r.accepted, h.removed + r.removed), ops);
  }

  /** An expired wait takes nothing, even if something has arrived. */
  lemma ExpiredTakesNothing<T>(q: Queue<T>)
    ensures Enabled(q, GetTimeout(true)) && Step(q, GetTimeout(true)).removed == [] && Step(q, GetTimeout(true)).q == q
  {
  }

  // ----- the ring buffer ----------------------------------------------------------------------------------------

  /** The slots in use, from the read pointer on and around the end; `full` tells the two readings of
      equal pointers apart. */
  function Window<T>(d: seq<T>, r: nat, w: nat, full: bool): seq<T>
    requires r < |d| && w < |d|
  {
    if full then d[r..] + d[..r] else if r <= w then d[r..w] else d[r..] + d[..w]
  }

  lemma Wrap(i: nat, n: nat)
    requires i < n
    ensures (i + 1) % n == if i + 1 == n then 0 else i + 1
  {
  }

  lemma WindowStore<T>(d: seq<T>, r: nat, w: nat, x: T, w': nat)
    requires r < |d| && w < |d| && w' == if w + 1 == |d| then 0 else w + 1
    ensures Window(d[w := x], r, w', w' == r) == Window(d, r, w, false) + [x]
  {
    var e := d[w := x];
    assert e[..w] == d[..w] && e[w + 1..] == d[w + 1..];
    if r <= w {
      assert e[r..w + 1] == d[r..w] + [x];
      if w' == 0 {
        assert e[r..] == e[r..w + 1];
        assert r == 0 ==> e[r..] + e[..r] == e[r..];
        assert r > 0 ==> e[r..] + e[..0] == e[r..];
      }
    } else {
      assert e[..w + 1] == d[..w] + [x] && e[r..] == d[r..];
    }
  }

  lemma WindowTake<T>(d: seq<T>, r: nat, w: nat, full: bool, r': nat)
    requires r < |d| && w < |d| && (full ==> r == w) && r' == if r + 1 == |d| then 0 else r + 1
    requires r != w || full
    ensures var s := Window(d, r, w, full); s != [] && s[0] == d[r] && Window(d, r', w, false) == s[1..]
  {
    var s := Window(d, r, w, full);
    assert d[r..] == [d[r]] + d[r + 1..];
    if r < w {
      assert s[1..] == d[r + 1..w];
    } else {
      assert s == [d[r]] + (d[r + 1..] + d[..w]);
      assert s[1..] == d[r + 1..] + d[..w];
      if r' == 0 {
        assert d[r + 1..] == [];
      }
    }
  }

  class Ring<T(0)> {
    var data: array<T>
    var readPointer: nat
    var writePointer: nat
    var full: bool
    var interrupted: bool
    var nIn: nat

    ghost function Items(): seq<T>
      reads this, data
      requires readPointer < data.Length && writePointer < data.Length
    {
      Window(data[..], readPointer, writePointer, full)
    }

    /** The pointers are in range and the counter is exact. */
    ghost predicate Valid()
      reads this, data
    {
      && readPointer < data.Length && writePointer < data.Length
      && (full ==> readPointer == writePointer)
      && nIn == |Items()|
    }

    ghost function Value(): Queue<T>
      reads this, data
      requires Valid()
    {
      Queue(data.Length, Items(), interrupted)
    }

    constructor (n: nat)
      requires n > 0
      ensures Valid() && Value() == Queue(n, [], false) && fresh(data)
    {
      data := new T[n];
      readPointer, writePointer, full, interrupted, nIn := 0, 0, false, false, 0;
    }

    /** `full` holds exactly at capacity. */
    lemma FullIff()
      requires Valid()
      ensures full <==> |Items()| == data.Length
    {
    }

    lemma NotEmpty()
      requires Valid()
      ensures Items() != [] <==> readPointer != writePointer || full
    {
    }

    method Store(x: T)
      requires Valid() && !full
      modifies this`writePointer, this`full, this`nIn, data
      ensures Valid() && Value() == old(Value()).(items := old(Items()) + [x])
    {
      hide Window;
      ghost var d, w := data[..], writePointer;
      data[writePointer] := x;
      Wrap(writePointer, data.Length);
      writePointer := (writePointer + 1) % data.Length;
      nIn := nIn + 1;
      full := writePointer == readPointer;
      assert data[..] == d[w := x];
      WindowStore(d, readPointer, w, x, writePointer);
    }

    /** put, entered when the queue is no longer full. */
    method PutElement(x: T)
      requires Valid() && !full
      modifies this`writePointer, this`full, this`nIn, data
      ensures Valid() && Enabled(old(Value()), Put(x)) && Value() == Step(old(Value()), Put(x)).q
    {
      FullIff();
      Store(x);
    }

    method TryPutElement(x: T) returns (havePut: bool)
      requires Valid()
      modifies this`writePointer, this`full, this`nIn, data
      ensures Valid() && Value() == Step(old(Value()), TryPut(x)).q
      ensures havePut == !Step(old(Value()), TryPut(x)).refused == (|old(Items())| < data.Length)
    {
      FullIff();
      havePut := false;
      if !full {
        Store(x);
        havePut := true;
      }
    }

    method Take() returns (x: T)
      requires Valid() && Items() != []
      modifies this`readPointer, this`full, this`nIn
      ensures Valid() && x == old(Items())[0] && Value() == old(Value()).(items := old(Items())[1..])
    {
      hide Window;
      NotEmpty();
      Wrap(readPointer, data.Length);
      WindowTake(data[..], readPointer, writePointer, full, (readPointer + 1) % data.Length);
      x := data[readPointer];
      readPointer := (readPointer + 1) % data.Length;
      nIn := nIn - 1;
      full := false;
    }

    /** get, once something is there, the wait was interrupted, or (with a timeout) it expired. An expired
        wait takes nothing, even if an element has arrived meanwhile. */
    method GetElement(expired: bool) returns (r: Option<T>)
      requires Valid() && Enabled(Value(), GetTimeout(expired))
      modifies this`readPointer, this`full, this`nIn
      ensures Valid() && Value() == Step(old(Value()), GetTimeout(expired)).q
      ensures r == (var out := Step(old(Value()), GetTimeout(expired)).removed; if out == [] then None else Some(out[0]))
    {
      if interrupted || expired {
        return None;
      }
      var x := Take();
      r := Some(x);
    }

    method InterruptAll()
      requires Valid()
      modifies this`interrupted
      ensures Valid() && Value() == Step(old(Value()), Interrupt).q && Items() == old(Items())
    {
      interrupted := true;
    }
  }
}
