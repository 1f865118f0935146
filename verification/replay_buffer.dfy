/** The bounded experience buffer of rl/replay_buffer.py: a list that keeps
    the most recent experiences, dropping the oldest when full. */
module ReplayBuffer {
  import opened Results
  import opened Sequences
  import opened Sampling

  datatype Buffer<T> = Buffer(items: seq<T>, capacity: int)

  /** `ReplayBuffer(capacity)`: an empty buffer. */
  function New<T>(capacity: int): (b: Buffer<T>)
    ensures Size(b) == 0 && b.capacity == capacity
  {
    Buffer([], capacity)
  }

  /** `size`: how many experiences are stored. */
  function Size<T>(b: Buffer<T>): (n: nat)
    ensures n == |b.items|
  {
    |b.items|
  }

  /** `add`: append below capacity; otherwise `pop(0)` then append. Popping
      an empty list (a buffer of capacity 0 or less) raises IndexError. */
  function Add<T>(b: Buffer<T>, e: T): (r: Result<Buffer<T>>)
    ensures r.Err? <==> b.capacity <= |b.items| && |b.items| == 0
    ensures r.Err? ==> r.error == IndexError
    ensures r.Ok? ==> r.value.capacity == b.capacity
    ensures r.Ok? ==> Size(r.value) == if Size(b) < b.capacity then Size(b) + 1 else Size(b)
    ensures r.Ok? ==> r.value.items[|r.value.items| - 1] == e
    ensures r.Ok? ==> r.value.items[..|r.value.items| - 1] == b.items[|b.items| + 1 - |r.value.items|..]
  {
    if |b.items| < b.capacity then Ok(b.(items := b.items + [e]))
    else if |b.items| == 0 then Err(IndexError)
    else Ok(b.(items := b.items[1..] + [e]))
  }

  /** A buffer of capacity at least one never overflows. */
  lemma AddKeepsBound<T>(b: Buffer<T>, e: T)
    requires 1 <= b.capacity && Size(b) <= b.capacity
    ensures Add(b, e).Ok? && Size(Add(b, e).value) <= b.capacity
  {
  }

  /** A buffer of capacity 0 cannot take any experience. */
  lemma ZeroCapacityFails<T>(e: T)
    ensures Add(New<T>(0), e) == Err(IndexError)
  {
  }

  /** Adding a sequence of experiences one by one. */
  function AddAll<T>(b: Buffer<T>, es: seq<T>): Result<Buffer<T>>
    decreases |es|
  {
    if |es| == 0 then Ok(b)
    else
      match Add(b, es[0])
      case Err(e) => Err(e)
      case Ok(b') => AddAll(b', es[1..])
  }

  /** The last `capacity` elements of `all`, or all of them when there are
      fewer. */
  function Window<T>(all: seq<T>, capacity: int): (w: seq<T>)
    requires 1 <= capacity
    ensures |w| == if |all| > capacity then capacity else |all|
  {
    if |all| > capacity then all[|all| - capacity..] else all
  }

  /** With capacity c >= 1, the buffer holds exactly the last c experiences
      of everything ever added, oldest first. */
  lemma {:induction false} AddAllKeepsNewest<T>(b: Buffer<T>, es: seq<T>)
    requires 1 <= b.capacity && Size(b) <= b.capacity
    ensures AddAll(b, es) == Ok(Buffer(Window(b.items + es, b.capacity), b.capacity))
    decreases |es|
  {
    if |es| == 0 {
      assert b.items + es == b.items;
    } else {
      var b' := Add(b, es[0]).value;
      assert AddAll(b, es) == AddAll(b', es[1..]);
      AddAllKeepsNewest(b', es[1..]);
      AddStepSameWindow(b, es);
    }
  }

  /** One `add` moves the window over `items + es` without changing what it
      ends with. */
  lemma AddStepSameWindow<T>(b: Buffer<T>, es: seq<T>)
    requires 1 <= b.capacity && Size(b) <= b.capacity && |es| > 0
    ensures Add(b, es[0]).Ok?
    ensures Window(Add(b, es[0]).value.items + es[1..], b.capacity) == Window(b.items + es, b.capacity)
  {
    var b' := Add(b, es[0]).value;
    var all := b.items + es;
    assert es == [es[0]] + es[1..];
    if |b.items| < b.capacity {
      assert b'.items == b.items + [es[0]];
      assert b'.items + es[1..] == all;
    } else {
      assert b'.items == b.items[1..] + [es[0]];
      assert b'.items + es[1..] == all[1..];
      assert all[1..][|all| - 1 - b.capacity..] == all[|all| - b.capacity..];
    }
  }

  /** From an empty buffer: the newest min(c, n) experiences remain. */
  lemma FromEmptyKeepsNewest<T>(capacity: int, es: seq<T>)
    requires 1 <= capacity
    ensures var n := if |es| > capacity then capacity else |es|;
            AddAll(New<T>(capacity), es) == Ok(Buffer(es[|es| - n..], capacity))
  {
    var b := New<T>(capacity);
    var n := if |es| > capacity then capacity else |es|;
    assert b.items + es == es;
    AddAllKeepsNewest(b, es);
    assert AddAll(b, es) == Ok(Buffer(Window(es, capacity), capacity));
    if |es| <= capacity {
      assert Window(es, capacity) == es == es[|es| - n..];
    } else {
      assert Window(es, capacity) == es[|es| - n..];
    }
    assert AddAll(b, es) == Ok(Buffer(es[|es| - n..], capacity));
  }

  /** `sample(batch_size)`: `random.sample` over the stored experiences, with
      the generator's choices given as `picks`. A batch larger than the
      buffer, or a negative one, raises ValueError. */
  function SampleBatch<T(==)>(b: Buffer<T>, batchSize: int, picks: seq<nat>): (r: Result<seq<T>>)
    requires 0 <= batchSize <= |b.items| ==> |picks| == batchSize && ValidPicks(picks, |b.items|)
    ensures r.Err? <==> batchSize < 0 || batchSize > |b.items|
    ensures r.Err? ==> r.error == ValueError
    ensures r.Ok? ==> |r.value| == batchSize && forall x :: x in r.value ==> x in b.items
    ensures r.Ok? && Distinct(b.items) ==> Distinct(r.value)
  {
    if batchSize < 0 || batchSize > |b.items| then Err(ValueError) else Ok(Sample(b.items, picks))
  }

  /** Every batch of distinct stored experiences can be the sample. */
  lemma SampleBatchReachesEvery<T>(b: Buffer<T>, batch: seq<T>)
    requires Distinct(batch) && forall x :: x in batch ==> x in b.items
    ensures exists picks :: |picks| == |batch| && ValidPicks(picks, |b.items|)
                            && SampleBatch(b, |batch|, picks) == Ok(batch)
  {
    SampleReachesEvery(b.items, batch);
    var picks :| ValidPicks(picks, |b.items|) && Sample(b.items, picks) == batch;
    assert SampleBatch(b, |batch|, picks) == Ok(batch);
  }
}
