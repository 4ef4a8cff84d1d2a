/**
  The single-producer single-consumer ring as interleaved atomic steps. Each side works on
  snapshots it loaded earlier. `pushed` and `popped` are histories: all values handed over so far.
 */
module SpscRings {
  import opened Words

  datatype Producer<T> =
    | Ready
    | TailLoaded(value: T, t: nat)
    | RoomSeen(value: T, t: nat, next: nat)
    | Written(value: T, next: nat)

  datatype Consumer<T> =
    | Waiting
    | HeadLoaded(h: nat)
    | ItemSeen(h: nat)
    | ItemRead(h: nat, item: T)

  datatype Ring<T> = Ring(
    buffer: seq<T>, head: nat, tail: nat,
    producer: Producer<T>, consumer: Consumer<T>,
    pushed: seq<T>, popped: seq<T>)

  datatype Action<T> =
    | PushLoadTail(value: T) | PushLoadHead | PushWrite | PushStore
    | PopLoadHead | PopLoadTail | PopRead | PopStore

  predicate InBounds<T>(r: Ring<T>) {
    var capacity := |r.buffer|;
    && r.head < capacity && r.tail < capacity
    && (r.producer.TailLoaded? ==> r.producer.t < capacity)
    && (r.producer.RoomSeen? ==> r.producer.t < capacity && r.producer.next < capacity)
    && (r.producer.Written? ==> r.producer.next < capacity)
    && (!r.consumer.Waiting? ==> r.consumer.h < capacity)
  }

  predicate Enabled<T>(r: Ring<T>, a: Action<T>) {
    match a
    case PushLoadTail(_) => r.producer.Ready?
    case PushLoadHead => r.producer.TailLoaded?
    case PushWrite => r.producer.RoomSeen?
    case PushStore => r.producer.Written?
    case PopLoadHead => r.consumer.Waiting?
    case PopLoadTail => r.consumer.HeadLoaded?
    case PopRead => r.consumer.ItemSeen?
    case PopStore => r.consumer.ItemRead?
  }

  /** One atomic step of push or pop. */
  function Apply<T>(r: Ring<T>, a: Action<T>): (r': Ring<T>)
    requires InBounds(r) && Enabled(r, a)
    ensures InBounds(r') && |r'.buffer| == |r.buffer|
  {
    match a
    case PushLoadTail(value) => r.(producer := TailLoaded(value, r.tail))
    case PushLoadHead =>
      var next := Masked(r.producer.t + 1, |r.buffer|);
      if next == r.head then r.(producer := Ready)
      else r.(producer := RoomSeen(r.producer.value, r.producer.t, next))
    case PushWrite =>
      r.(buffer := r.buffer[r.producer.t := r.producer.value],
         producer := Written(r.producer.value, r.producer.next))
    case PushStore =>
      r.(tail := r.producer.next, producer := Ready, pushed := r.pushed + [r.producer.value])
    case PopLoadHead => r.(consumer := HeadLoaded(r.head))
    case PopLoadTail =>
      if r.consumer.h == r.tail then r.(consumer := Waiting) else r.(consumer := ItemSeen(r.consumer.h))
    case PopRead => r.(consumer := ItemRead(r.consumer.h, r.buffer[r.consumer.h]))
    case PopStore =>
      r.(head := Masked(r.consumer.h + 1, |r.buffer|), consumer := Waiting,
         popped := r.popped + [r.consumer.item])
  }

  function Empty<T>(buffer: seq<T>): (r: Ring<T>) {
    Ring(buffer, 0, 0, Ready, Waiting, [], [])
  }

  /** A run: any interleaving of the two sides' steps. */
  ghost predicate Possible<T>(r: Ring<T>, steps: seq<Action<T>>)
    requires InBounds(r)
    decreases |steps|
  {
    steps == [] || (Enabled(r, steps[0]) && Possible(Apply(r, steps[0]), steps[1..]))
  }

  function Run<T>(r: Ring<T>, steps: seq<Action<T>>): (r': Ring<T>)
    requires InBounds(r) && Possible(r, steps)
    decreases |steps|
  {
    if steps == [] then r else Run(Apply(r, steps[0]), steps[1..])
  }

  // ---- What every interleaving keeps ----

  /** Values handed over and not yet taken. */
  function InFlight<T>(r: Ring<T>): (n: int) {
    |r.pushed| - |r.popped|
  }

  /** The cell of the i-th value ever pushed still holds it. */
  ghost predicate Held<T>(r: Ring<T>, i: nat)
    requires i < |r.pushed| && |r.buffer| > 0
  {
    r.buffer[i % |r.buffer|] == r.pushed[i]
  }

  ghost predicate ProducerSound<T>(r: Ring<T>)
    requires InBounds(r)
  {
    match r.producer
    case Ready => true
    case TailLoaded(_, t) => t == r.tail
    case RoomSeen(_, t, next) =>
      t == r.tail && next == (|r.pushed| + 1) % |r.buffer| && InFlight(r) + 1 < |r.buffer|
    case Written(value, next) =>
      r.buffer[r.tail] == value && next == (|r.pushed| + 1) % |r.buffer| && InFlight(r) + 1 < |r.buffer|
  }

  ghost predicate ConsumerSound<T>(r: Ring<T>)
    requires InBounds(r)
  {
    match r.consumer
    case Waiting => true
    case HeadLoaded(h) => h == r.head
    case ItemSeen(h) => h == r.head && |r.popped| < |r.pushed|
    case ItemRead(h, item) => h == r.head && |r.popped| < |r.pushed| && item == r.pushed[|r.popped|]
  }

  /** First in, first out; fewer than capacity in flight; every unread cell intact. */
  ghost predicate Sound<T>(r: Ring<T>) {
    && InBounds(r)
    && r.popped <= r.pushed && InFlight(r) < |r.buffer|
    && r.head == |r.popped| % |r.buffer| && r.tail == |r.pushed| % |r.buffer|
    && (forall i {:trigger Held(r, i)} | |r.popped| <= i < |r.pushed| :: Held(r, i))
    && ProducerSound(r) && ConsumerSound(r)
  }

  lemma NextCell(n: nat, capacity: nat)
    requires capacity > 0
    ensures (n % capacity + 1) % capacity == (n + 1) % capacity
  {
    var m := n % capacity;
    var q := n / capacity;
    if m + 1 < capacity {
      ModUnique(m + 1, capacity, 0, m + 1);
      ModUnique(n + 1, capacity, q, m + 1);
    } else {
      ModUnique(m + 1, capacity, 1, 0);
      ModUnique(n + 1, capacity, q + 1, 0);
    }
  }

  lemma NearCells(i: nat, j: nat, capacity: int)
    requires capacity > 0 && i < j < i + capacity
    ensures i % capacity != j % capacity
  {
    var d := j / capacity - i / capacity;
    assert j - i == d * capacity + (j % capacity - i % capacity);
    assert d >= 1 ==> d * capacity >= capacity;
    assert d <= -1 ==> d * capacity <= -capacity;
  }

  /** What `push` reads off the two indices is exact at the moment it loads `head`. */
  lemma FullSeen<T>(r: Ring<T>)
    requires Sound(r) && r.producer.TailLoaded?
    ensures Apply(r, PushLoadHead).producer.Ready? <==> InFlight(r) == |r.buffer| - 1
  {
    var capacity := |r.buffer|;
    NextCell(|r.pushed|, capacity);
    if InFlight(r) == capacity - 1 {
      ModUnique(|r.pushed| + 1, capacity, |r.popped| / capacity + 1, |r.popped| % capacity);
    } else {
      NearCells(|r.popped|, |r.pushed| + 1, capacity);
    }
  }

  lemma EmptySeen<T>(r: Ring<T>)
    requires Sound(r) && r.consumer.HeadLoaded?
    ensures Apply(r, PopLoadTail).consumer.Waiting? <==> r.popped == r.pushed
  {
    if r.popped != r.pushed {
      NearCells(|r.popped|, |r.pushed|, |r.buffer|);
    }
  }

  /** The data write hits no cell that is still to be read. */
  lemma WriteSpares<T>(r: Ring<T>, i: nat)
    requires Sound(r) && r.producer.RoomSeen? && |r.popped| <= i < |r.pushed|
    ensures i % |r.buffer| != r.producer.t
    ensures Held(Apply(r, PushWrite), i)
  {
    NearCells(i, |r.pushed|, |r.buffer|);
    assert Held(r, i);
  }

  lemma StepSound<T>(r: Ring<T>, a: Action<T>)
    requires Sound(r) && Enabled(r, a)
    ensures Sound(Apply(r, a))
  {
    var r' := Apply(r, a);
    match a
    case PushLoadHead => FullSeen(r); NextCell(|r.pushed|, |r.buffer|); SameCells(r, r');
    case PushWrite =>
      forall i {:trigger Held(r', i)} | |r'.popped| <= i < |r'.pushed| ensures Held(r', i) {
        WriteSpares(r, i);
      }
    case PushStore =>
      forall i {:trigger Held(r', i)} | |r'.popped| <= i < |r'.pushed| ensures Held(r', i) {
        assert i < |r.pushed| ==> Held(r, i);
      }
    case PopLoadTail => EmptySeen(r); SameCells(r, r');
    case PopRead => assert Held(r, |r.popped|); SameCells(r, r');
    case PopStore => NextCell(|r.popped|, |r.buffer|); SameCells(r, r');
    case PushLoadTail(_) => SameCells(r, r');
    case PopLoadHead => SameCells(r, r');
  }

  lemma SameCells<T>(r: Ring<T>, r': Ring<T>)
    requires Sound(r) && r'.buffer == r.buffer && r'.pushed == r.pushed && |r'.popped| >= |r.popped|
    ensures forall i {:trigger Held(r', i)} | |r'.popped| <= i < |r'.pushed| :: Held(r', i)
  {
    forall i {:trigger Held(r', i)} | |r'.popped| <= i < |r'.pushed| ensures Held(r', i) {
      assert Held(r, i);
    }
  }

  /** Every run of both sides, from an empty ring of any capacity. */
  lemma {:induction false} RunSound<T>(r: Ring<T>, steps: seq<Action<T>>)
    requires Sound(r) && Possible(r, steps)
    ensures Sound(Run(r, steps))
    decreases |steps|
  {
    if steps != [] {
      StepSound(r, steps[0]);
      RunSound(Apply(r, steps[0]), steps[1..]);
    }
  }

  lemma EveryRun<T>(buffer: seq<T>, steps: seq<Action<T>>)
    requires |buffer| > 0 && Possible(Empty(buffer), steps)
    ensures var r := Run(Empty(buffer), steps);
            && r.popped <= r.pushed
            && InFlight(r) <= |buffer| - 1
            && Sound(r)
  {
    RunSound(Empty(buffer), steps);
    RunCapacity(Empty(buffer), steps);
  }

  lemma {:induction false} RunCapacity<T>(r: Ring<T>, steps: seq<Action<T>>)
    requires InBounds(r) && Possible(r, steps)
    ensures |Run(r, steps).buffer| == |r.buffer|
    decreases |steps|
  {
    if steps != [] {
      RunCapacity(Apply(r, steps[0]), steps[1..]);
    }
  }
}
