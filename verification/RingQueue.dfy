/** The single-producer single-consumer ring of common/lf_queue.h at the granularity of slot, index and
    counter accesses, for every interleaving of the two threads. The consumer is the market data
    publisher, which copies an element once more after releasing it
    (exchange/market_data/market_data_publisher.cpp:42-56). Atomics are sequentially consistent. */
module RingQueue {

  /** A slot is torn while an element is being written into it. */
  datatype Cell<T> = Torn | Whole(value: T)

  datatype Producer = Idle | Writing | Written | Advanced

  datatype Consumer<T> =
    | Waiting
    | Peeked(at: nat)
    | HasRead(at: nat)
    | Moved(at: nat)
    | Released(at: nat)

  /** `sent` are the elements whose write has begun; `got` what the consumer read of each before it
      released it, `late` what it read after. */
  datatype Ring<T> = Ring(store: seq<Cell<T>>, w: nat, r: nat, n: int, producer: Producer, consumer: Consumer<T>,
                          sent: seq<T>, got: seq<Cell<T>>, late: seq<Cell<T>>)
  {
    /** Elements fully published. */
    function Published(): int {
      if producer.Idle? then |sent| else |sent| - 1
    }

    /** Elements the read index has passed. */
    function Passed(): int {
      if consumer.HasRead? then |got| - 1 else |got|
    }

    function Unread(): int {
      Published() - Passed()
    }
  }

  function Fresh<T>(size: nat): Ring<T> {
    Ring(seq(size, i => Torn), 0, 0, 0, Idle, Waiting, [], [], [])
  }

  datatype Event<T> =
    | BeginWrite(value: T)
    | EndWrite
    | AdvanceWrite
    | CountWrite
    | Peek
    | Read
    | AdvanceRead
    | CountRead
    | ReadAgain

  /** A write starts only while fewer than `room` elements are unread: an undertaking of the callers, the
      queue itself does not look. */
  predicate Possible<T>(q: Ring<T>, room: nat, e: Event<T>) {
    match e
    case BeginWrite(_) => q.producer.Idle? && q.Unread() < room && q.w < |q.store|
    case EndWrite => q.producer.Writing? && q.w < |q.store| && q.sent != []
    case AdvanceWrite => q.producer.Written? && q.store != []
    case CountWrite => q.producer.Advanced?
    case Peek => q.consumer.Waiting? && q.n != 0
    case Read => q.consumer.Peeked? && q.consumer.at < |q.store|
    case AdvanceRead => q.consumer.HasRead? && q.store != []
    case CountRead => q.consumer.Moved?
    case ReadAgain => q.consumer.Released? && q.consumer.at < |q.store|
  }

  function Step<T>(q: Ring<T>, room: nat, e: Event<T>): Ring<T>
    requires Possible(q, room, e)
  {
    match e
    case BeginWrite(v) => q.(store := q.store[q.w := Torn], producer := Writing, sent := q.sent + [v])
    case EndWrite => q.(store := q.store[q.w := Whole(q.sent[|q.sent| - 1])], producer := Written)
    case AdvanceWrite => q.(w := (q.w + 1) % |q.store|, producer := Advanced)
    case CountWrite => q.(n := q.n + 1, producer := Idle)
    case Peek => q.(consumer := Peeked(q.r))
    case Read => q.(consumer := HasRead(q.consumer.at), got := q.got + [q.store[q.consumer.at]])
    case AdvanceRead => q.(r := (q.r + 1) % |q.store|, consumer := Moved(q.consumer.at))
    case CountRead => q.(n := q.n - 1, consumer := Released(q.consumer.at))
    case ReadAgain => q.(consumer := Waiting, late := q.late + [q.store[q.consumer.at]])
  }

  ghost predicate PossibleAll<T>(q: Ring<T>, room: nat, es: seq<Event<T>>)
    decreases |es|
  {
    es == [] || (Possible(q, room, es[0]) && PossibleAll(Step(q, room, es[0]), room, es[1..]))
  }

  ghost function StepAll<T>(q: Ring<T>, room: nat, es: seq<Event<T>>): Ring<T>
    requires PossibleAll(q, room, es)
    decreases |es|
  {
    if es == [] then q else StepAll(Step(q, room, es[0]), room, es[1..])
  }

  // ---------------------------------------------------------------------- the invariant

  /** Element k is in its slot. */
  ghost predicate Stored<T>(q: Ring<T>, k: nat)
    requires q.store != []
  {
    k < |q.sent| && q.store[k % |q.store|] == Whole(q.sent[k])
  }

  /** Reads so far gave the elements in order. */
  ghost predicate InOrder<T>(cells: seq<Cell<T>>, sent: seq<T>) {
    |cells| <= |sent| && forall k :: 0 <= k < |cells| ==> cells[k] == Whole(sent[k])
  }

  /** Elements whose count has been taken back. */
  function Counted<T>(q: Ring<T>): int {
    if q.consumer.HasRead? || q.consumer.Moved? then |q.got| - 1 else |q.got|
  }

  ghost predicate Indexed<T>(q: Ring<T>) {
    var size := |q.store|;
    && size > 0 && (q.producer.Idle? || q.sent != [])
    && q.w == (if q.producer.Advanced? then q.Published() + 1 else q.Published()) % size
    && (q.consumer.HasRead? || q.consumer.Moved? || q.consumer.Released? ==> q.got != [])
    && 0 <= q.Passed() && q.r == q.Passed() % size
    && q.n == q.Published() - Counted(q)
    && |q.got| <= q.Published()
    && (q.consumer.Peeked? ==> |q.got| < q.Published() && q.consumer.at == |q.got| % size)
    && (q.consumer.HasRead? || q.consumer.Moved? || q.consumer.Released? ==> q.consumer.at == (|q.got| - 1) % size)
  }

  /** No more than `room` elements are between the read index and the end of the writes begun. */
  ghost predicate Inv<T>(q: Ring<T>, room: nat) {
    && Indexed(q) && |q.sent| - q.Passed() <= room
    && (forall k: nat :: q.Passed() <= k < q.Published() ==> Stored(q, k))
    && (q.producer.Written? || q.producer.Advanced? ==> Stored(q, |q.sent| - 1))
    && InOrder(q.got, q.sent)
  }

  lemma ModUnique(x: nat, q: nat, r: nat, size: nat)
    requires size > 0 && x == q * size + r && r < size
    ensures x % size == r
  {
    var d := x / size - q;
    assert d * size == r - x % size;
    assert d >= 1 ==> d * size >= size;
    assert d <= -1 ==> d * size + size <= 0;
  }

  lemma SlotAfter(a: nat, d: nat, size: nat)
    requires size > 0 && d < size
    ensures (a + d) % size == if a % size + d < size then a % size + d else a % size + d - size
  {
    var q, r := a / size, a % size;
    if r + d < size {
      ModUnique(a + d, q, r + d, size);
    } else {
      assert (q + 1) * size == q * size + size;
      ModUnique(a + d, q + 1, r + d - size, size);
    }
  }

  /** Positions less than a ring apart have different slots. */
  lemma SlotsDiffer(a: nat, b: nat, size: nat)
    requires a < b < a + size
    ensures a % size != b % size
  {
    SlotAfter(a, b - a, size);
  }

  lemma NextSlot(a: nat, size: nat)
    requires size > 0
    ensures (a % size + 1) % size == (a + 1) % size
  {
    var q, r := a / size, a % size;
    if r + 1 < size {
      ModUnique(a + 1, q, r + 1, size);
      ModUnique(r + 1, 0, r + 1, size);
    } else {
      assert (q + 1) * size == q * size + size;
      ModUnique(a + 1, q + 1, 0, size);
      ModUnique(r + 1, 1, 0, size);
    }
  }

  // ---------------------------------------------------------------------- every step

  lemma BeginWriteKeeps<T>(q: Ring<T>, t: Ring<T>, room: nat, v: T)
    requires Inv(q, room) && room <= |q.store| && Possible(q, room, BeginWrite(v)) && t == Step(q, room, BeginWrite(v))
    ensures Inv(t, room)
  {
    forall k: nat | t.Passed() <= k < t.Published()
      ensures Stored(t, k)
    {
      assert Stored(q, k);
      SlotsDiffer(k, |q.sent|, |q.store|);
    }
  }

  lemma EndWriteKeeps<T>(q: Ring<T>, t: Ring<T>, room: nat)
    requires Inv(q, room) && room <= |q.store| && Possible(q, room, EndWrite) && t == Step(q, room, EndWrite)
    ensures Inv(t, room)
  {
    forall k: nat | t.Passed() <= k < t.Published()
      ensures Stored(t, k)
    {
      assert Stored(q, k);
      SlotsDiffer(k, |q.sent| - 1, |q.store|);
    }
  }

  lemma AdvanceWriteKeeps<T>(q: Ring<T>, t: Ring<T>, room: nat)
    requires Inv(q, room) && Possible(q, room, AdvanceWrite) && t == Step(q, room, AdvanceWrite)
    ensures Inv(t, room)
  {
    NextSlot(q.Published(), |q.store|);
    forall k: nat | t.Passed() <= k < t.Published()
      ensures Stored(t, k)
    {
      assert Stored(q, k);
    }
  }

  lemma CountWriteKeeps<T>(q: Ring<T>, t: Ring<T>, room: nat)
    requires Inv(q, room) && Possible(q, room, CountWrite) && t == Step(q, room, CountWrite)
    ensures Inv(t, room)
  {
    forall k: nat | t.Passed() <= k < t.Published()
      ensures Stored(t, k)
    {
      assert Stored(q, k);
    }
  }

  lemma ReadKeeps<T>(q: Ring<T>, t: Ring<T>, room: nat)
    requires Inv(q, room) && Possible(q, room, Read) && t == Step(q, room, Read)
    ensures Inv(t, room)
  {
    assert Stored(q, |q.got|);
    forall k: nat | t.Passed() <= k < t.Published()
      ensures Stored(t, k)
    {
      assert Stored(q, k);
    }
  }

  lemma AdvanceReadKeeps<T>(q: Ring<T>, t: Ring<T>, room: nat)
    requires Inv(q, room) && Possible(q, room, AdvanceRead) && t == Step(q, room, AdvanceRead)
    ensures Inv(t, room)
  {
    NextSlot(q.Passed(), |q.store|);
    forall k: nat | t.Passed() <= k < t.Published()
      ensures Stored(t, k)
    {
      assert Stored(q, k);
    }
  }

  lemma OtherReadsKeep<T>(q: Ring<T>, t: Ring<T>, room: nat, e: Event<T>)
    requires Inv(q, room) && Possible(q, room, e) && t == Step(q, room, e) && (e.Peek? || e.CountRead? || e.ReadAgain?)
    ensures Inv(t, room)
  {
    forall k: nat | t.Passed() <= k < t.Published()
      ensures Stored(t, k)
    {
      assert Stored(q, k);
    }
  }

  lemma StepKeeps<T>(q: Ring<T>, t: Ring<T>, room: nat, e: Event<T>)
    requires Inv(q, room) && room <= |q.store| && Possible(q, room, e) && t == Step(q, room, e)
    ensures Inv(t, room) && |t.store| == |q.store|
  {
    match e
    case BeginWrite(v) => BeginWriteKeeps(q, t, room, v);
    case EndWrite => EndWriteKeeps(q, t, room);
    case AdvanceWrite => AdvanceWriteKeeps(q, t, room);
    case CountWrite => CountWriteKeeps(q, t, room);
    case Read => ReadKeeps(q, t, room);
    case AdvanceRead => AdvanceReadKeeps(q, t, room);
    case Peek => OtherReadsKeep(q, t, room, e);
    case CountRead => OtherReadsKeep(q, t, room, e);
    case ReadAgain => OtherReadsKeep(q, t, room, e);
  }

  // ---------------------------------------------------------------------- every run

  lemma FreshInv<T>(size: nat, room: nat)
    requires size > 0
    ensures Inv(Fresh<T>(size), room) && LateInv(Fresh<T>(size))
  {
  }

  lemma {:induction false} RunKeeps<T>(q: Ring<T>, room: nat, es: seq<Event<T>>)
    requires Inv(q, room) && room <= |q.store| && PossibleAll(q, room, es)
    ensures Inv(StepAll(q, room, es), room)
    decreases |es|
  {
    if es != [] {
      StepKeeps(q, Step(q, room, es[0]), room, es[0]);
      RunKeeps(Step(q, room, es[0]), room, es[1..]);
    }
  }

  /** Over every interleaving in which writes wait for a free slot, the consumer reads the elements in
      the order they were sent, whole, and the counter is never zero when it releases one. */
  lemma Fifo<T>(size: nat, room: nat, es: seq<Event<T>>)
    requires 0 < room <= size && PossibleAll(Fresh<T>(size), room, es)
    ensures var q := StepAll(Fresh<T>(size), room, es);
            InOrder(q.got, q.sent) && (q.consumer.Moved? ==> q.n > 0)
  {
    FreshInv<T>(size, room);
    RunKeeps(Fresh<T>(size), room, es);
  }

  // ---------------------------------------------------------------------- reading after releasing

  ghost predicate LateInv<T>(q: Ring<T>) {
    && |q.late| == (if q.consumer.Waiting? || q.consumer.Peeked? then |q.got| else |q.got| - 1)
    && (q.consumer.Moved? || q.consumer.Released? ==> q.store != [] && q.got != [] && Stored(q, |q.got| - 1))
    && InOrder(q.late, q.sent)
  }

  lemma LateStep<T>(q: Ring<T>, t: Ring<T>, room: nat, e: Event<T>)
    requires Inv(q, room) && room < |q.store| && LateInv(q) && Possible(q, room, e) && t == Step(q, room, e)
    ensures LateInv(t)
  {
    if (e.BeginWrite? || e.EndWrite?) && (q.consumer.Moved? || q.consumer.Released?) {
      SlotsDiffer(|q.got| - 1, if e.BeginWrite? then |q.sent| else |q.sent| - 1, |q.store|);
    } else if e.AdvanceRead? {
      assert Stored(q, |q.got| - 1);
    }
  }

  lemma {:induction false} LateRunKeeps<T>(q: Ring<T>, room: nat, es: seq<Event<T>>)
    requires Inv(q, room) && room < |q.store| && LateInv(q) && PossibleAll(q, room, es)
    ensures LateInv(StepAll(q, room, es))
    decreases |es|
  {
    if es != [] {
      StepKeeps(q, Step(q, room, es[0]), room, es[0]);
      LateStep(q, Step(q, room, es[0]), room, es[0]);
      LateRunKeeps(Step(q, room, es[0]), room, es[1..]);
    }
  }

  /** With one more slot of slack, the copy after the release still sees the element released. */
  lemma LateFifo<T>(size: nat, room: nat, es: seq<Event<T>>)
    requires 0 < room < size && PossibleAll(Fresh<T>(size), room, es)
    ensures var q := StepAll(Fresh<T>(size), room, es); InOrder(q.late, q.sent)
  {
    FreshInv<T>(size, room);
    LateRunKeeps(Fresh<T>(size), room, es);
  }

  // ---------------------------------------------------------------------- with less room, both fail

  lemma {:induction false} RunThenStep<T>(q: Ring<T>, room: nat, es: seq<Event<T>>, e: Event<T>)
    requires PossibleAll(q, room, es) && Possible(StepAll(q, room, es), room, e)
    ensures PossibleAll(q, room, es + [e]) && StepAll(q, room, es + [e]) == Step(StepAll(q, room, es), room, e)
    decreases |es|
  {
    if es == [] {
      assert es + [e] == [e] && [e][1..] == [];
    } else {
      RunThenStep(Step(q, room, es[0]), room, es[1..], e);
      assert (es + [e])[1..] == es[1..] + [e];
    }
  }

  /** The numbers 0, 1, ... k-1 written and none read. */
  ghost predicate Loaded(q: Ring<nat>, size: nat, k: nat) {
    && 0 < size == |q.store| && q.w == k % size && q.r == 0 && q.n == k && q.producer.Idle? && q.consumer.Waiting?
    && |q.sent| == k && (forall i :: 0 <= i < k ==> q.sent[i] == i) && q.got == [] && q.late == []
    && (forall i: nat :: i < k <= i + size ==> q.store[i % size] == Whole(i))
  }

  /** The ring after one more number. */
  function WithOneMore(q: Ring<nat>, k: nat): Ring<nat>
    requires q.w < |q.store|
  {
    q.(store := q.store[q.w := Whole(k)], w := (q.w + 1) % |q.store|, n := q.n + 1, sent := q.sent + [k])
  }

  lemma OneMoreLoaded(q: Ring<nat>, size: nat, k: nat)
    requires Loaded(q, size, k)
    ensures Loaded(WithOneMore(q, k), size, k + 1)
  {
    var t := WithOneMore(q, k);
    NextSlot(k, size);
    forall i: nat | i < k + 1 <= i + size
      ensures t.store[i % size] == Whole(i)
    {
      if i < k {
        SlotsDiffer(i, k, size);
        assert q.store[i % size] == Whole(i);
      }
    }
  }

  /** Writing one element, step by step. */
  lemma WriteOne(start: Ring<nat>, room: nat, es: seq<Event<nat>>, k: nat) returns (es': seq<Event<nat>>)
    requires PossibleAll(start, room, es)
    requires var q := StepAll(start, room, es); q.producer.Idle? && q.Unread() < room && q.w < |q.store|
    ensures PossibleAll(start, room, es') && StepAll(start, room, es') == WithOneMore(StepAll(start, room, es), k)
  {
    RunThenStep(start, room, es, BeginWrite(k));
    RunThenStep(start, room, es + [BeginWrite(k)], EndWrite);
    RunThenStep(start, room, es + [BeginWrite(k)] + [EndWrite], AdvanceWrite);
    RunThenStep(start, room, es + [BeginWrite(k)] + [EndWrite] + [AdvanceWrite], CountWrite);
    es' := es + [BeginWrite(k)] + [EndWrite] + [AdvanceWrite] + [CountWrite];
  }

  lemma {:induction false} Load(size: nat, room: nat, k: nat) returns (es: seq<Event<nat>>)
    requires 0 < size && k <= room
    ensures PossibleAll(Fresh<nat>(size), room, es) && Loaded(StepAll(Fresh<nat>(size), room, es), size, k)
    decreases k
  {
    if k == 0 {
      es := [];
    } else {
      es := Load(size, room, k - 1);
      OneMoreLoaded(StepAll(Fresh<nat>(size), room, es), size, k - 1);
      es := WriteOne(Fresh<nat>(size), room, es, k - 1);
    }
  }

  /** With room for more than the ring holds, the first element read can be the wrong one. */
  lemma TooMuchRoom(size: nat, room: nat) returns (es: seq<Event<nat>>)
    requires 0 < size < room
    ensures PossibleAll(Fresh<nat>(size), room, es)
    ensures !InOrder(StepAll(Fresh<nat>(size), room, es).got, StepAll(Fresh<nat>(size), room, es).sent)
  {
    var start := Fresh<nat>(size);
    es := Load(size, room, size + 1);
    var q := StepAll(start, room, es);
    SlotAfter(size, 0, size);
    assert q.store[size % size] == Whole(size);
    RunThenStep(start, room, es, Peek);
    RunThenStep(start, room, es + [Peek], Read);
    es := es + [Peek] + [Read];
    assert StepAll(start, room, es).got == [Whole(size)] && StepAll(start, room, es).sent[0] == 0;
  }

  /** With room for exactly what the ring holds, the copy after the release can be torn. */
  lemma NoSlack(size: nat, room: nat) returns (es: seq<Event<nat>>)
    requires 0 < size <= room
    ensures PossibleAll(Fresh<nat>(size), room, es)
    ensures !InOrder(StepAll(Fresh<nat>(size), room, es).late, StepAll(Fresh<nat>(size), room, es).sent)
  {
    var start := Fresh<nat>(size);
    es := Load(size, room, size);
    SlotAfter(0, 0, size);
    SlotAfter(size, 0, size);
    RunThenStep(start, room, es, Peek);
    RunThenStep(start, room, es + [Peek], Read);
    RunThenStep(start, room, es + [Peek] + [Read], AdvanceRead);
    RunThenStep(start, room, es + [Peek] + [Read] + [AdvanceRead], CountRead);
    es := es + [Peek] + [Read] + [AdvanceRead] + [CountRead];
    RunThenStep(start, room, es, BeginWrite(size));
    RunThenStep(start, room, es + [BeginWrite(size)], ReadAgain);
    es := es + [BeginWrite(size)] + [ReadAgain];
    assert StepAll(start, room, es).late == [Torn] && [Torn][0] != Whole(0);
  }

  /** Exactly when the plain read and the read after the release are safe. */
  lemma RoomIff(size: nat, room: nat)
    requires 0 < size && 0 < room
    ensures (forall es :: PossibleAll(Fresh<nat>(size), room, es) ==>
               InOrder(StepAll(Fresh<nat>(size), room, es).got, StepAll(Fresh<nat>(size), room, es).sent)) <==> room <= size
    ensures (forall es :: PossibleAll(Fresh<nat>(size), room, es) ==>
               InOrder(StepAll(Fresh<nat>(size), room, es).late, StepAll(Fresh<nat>(size), room, es).sent)) <==> room < size
  {
    if room > size {
      var es := TooMuchRoom(size, room);
    } else {
      forall es | PossibleAll(Fresh<nat>(size), room, es) { Fifo(size, room, es); }
    }
    if room >= size {
      var es := NoSlack(size, room);
    } else {
      forall es | PossibleAll(Fresh<nat>(size), room, es) { LateFifo(size, room, es); }
    }
  }

  // ---------------------------------------------------------------------- the queue object

  function Slot(from: nat, i: nat, size: nat): (k: nat)
    requires size > 0
    ensures k < size
  {
    (from + i) % size
  }

  /** n elements of a ring, from a slot on. */
  ghost function Unrolled<T>(store: seq<T>, from: nat, n: nat): (s: seq<T>)
    requires store != []
    ensures |s| == n
    ensures forall i :: 0 <= i < n ==> s[i] == store[Slot(from, i, |store|)]
  {
    seq(n, i requires 0 <= i < n => store[Slot(from, i, |store|)])
  }

  lemma WriteUnrolled<T>(store: seq<T>, from: nat, n: nat, value: T)
    requires n < |store|
    ensures var w := Slot(from, n, |store|);
            Unrolled(store[w := value], from, n + 1) == Unrolled(store, from, n) + [value]
  {
    var w := Slot(from, n, |store|);
    forall i | 0 <= i < n
      ensures Slot(from, i, |store|) != w
    {
      SlotsDiffer(from + i, from + n, |store|);
    }
  }

  lemma ReleaseUnrolled<T>(store: seq<T>, from: nat, n: nat)
    requires 0 < n && store != []
    ensures Unrolled(store, Slot(from, 1, |store|), n - 1) == Unrolled(store, from, n)[1..]
  {
    var size := |store|;
    forall i | 0 <= i < n - 1
      ensures Slot(Slot(from, 1, size), i, size) == Slot(from, i + 1, size)
    {
      WrapFirst(from + 1, i, size);
    }
  }

  lemma WrapFirst(a: nat, i: nat, size: nat)
    requires size > 0
    ensures (a % size + i) % size == (a + i) % size
  {
    var q, r := a / size, (a % size + i) % size;
    var k := (a % size + i) / size;
    assert a + i == q * size + k * size + r;
    assert (q + k) * size == q * size + k * size;
    ModUnique(a + i, q + k, r, size);
  }

  lemma SlotHere(from: nat, size: nat)
    requires from < size
    ensures Slot(from, 0, size) == from
  {
  }

  lemma SlotNext(from: nat, n: nat, size: nat)
    requires size > 0
    ensures (Slot(from, n, size) + 1) % size == Slot(from, n + 1, size)
  {
    NextSlot(from + n, size);
  }

  lemma SlotRest(from: nat, n: nat, size: nat)
    requires size > 0
    ensures Slot((from + 1) % size, n, size) == Slot(from, n + 1, size)
  {
    WrapFirst(from + 1, n, size);
  }

  /** The queue as one thread sees it between operations: a fixed store, two indices and a count. */
  class LFQueue<T> {
    const store: array<T>
    var nextWrite: nat
    var nextRead: nat
    var count: nat

    ghost predicate Valid()
      reads this
    {
      && 0 < store.Length && nextRead < store.Length && count <= store.Length
      && nextWrite == Slot(nextRead, count, store.Length)
    }

    /** The unread elements, oldest first. */
    ghost function Contents(): seq<T>
      requires Valid()
      reads this, store
    {
      Unrolled(store[..], nextRead, count)
    }

    constructor (size: nat, default: T)
      requires size > 0
      ensures Valid() && fresh(store) && store.Length == size && Contents() == []
    {
      store := new T[size](_ => default);
      nextWrite, nextRead, count := 0, 0, 0;
    }

    /** getNextToWriteTo, the write, and updateWriteIndex (lf_queue.h:22-29). */
    method Write(value: T)
      requires Valid() && count < store.Length
      modifies this, store
      ensures Valid() && Contents() == old(Contents()) + [value]
    {
      WriteUnrolled(store[..], nextRead, count, value);
      SlotNext(nextRead, count, store.Length);
      ghost var after := store[..][nextWrite := value];
      store[nextWrite] := value;
      nextWrite := (nextWrite + 1) % store.Length;
      count := count + 1;
      assert store[..] == after;
    }

    /** getNextToRead (lf_queue.h:31-33); `some` is false where the source returns no element. */
    method Front() returns (some: bool, index: nat)
      requires Valid()
      ensures some == (Contents() != [])
      ensures some ==> index < store.Length && store[index] == Contents()[0]
    {
      some, index := count != 0, nextRead;
      SlotHere(nextRead, store.Length);
    }

    /** updateReadIndex (lf_queue.h:35-41). */
    method Release()
      requires Valid() && Contents() != []
      modifies `nextRead, `count
      ensures Valid() && Contents() == old(Contents())[1..]
    {
      ReleaseUnrolled(store[..], nextRead, count);
      SlotRest(nextRead, count - 1, store.Length);
      nextRead := (nextRead + 1) % store.Length;
      count := count - 1;
    }
  }
}
