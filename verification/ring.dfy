/** The fixed-capacity circular buffer the firmware writes three times over:
    the per-sensor sample cache of the data collector, the alarm record
    history and the smart controller's action history. All three keep a
    backing array, a write index and a saturating count; this module models
    that representation once and proves it equivalent to "the last
    `capacity` items pushed, in push order". */
module Ring {
  import opened Common

  /** `items` is the backing array (its length is the capacity), `index` the
      next slot to write and `count` the number of retained entries. A
      capacity of 0 stands for a buffer that was never allocated. */
  datatype Ring<T> = Ring(items: seq<T>, index: nat, count: nat)
  {
    function Capacity(): nat {
      |items|
    }
  }

  /** The representation invariant the three writers maintain. */
  predicate Valid<T>(r: Ring<T>) {
    if |r.items| == 0 then r.index == 0 && r.count == 0
    else r.index < |r.items| && r.count <= |r.items|
  }

  /** The last `n` elements of `s` (all of `s` when it is shorter). */
  function Tail<T>(s: seq<T>, n: nat): (t: seq<T>)
    ensures |t| == Min(n, |s|)
    ensures forall i :: 0 <= i < |t| ==> t[i] == s[|s| - |t| + i]
  {
    if |s| <= n then s else s[|s| - n..]
  }

  /** A freshly allocated buffer: nothing retained, write index at slot 0. */
  function Empty<T>(capacity: nat, fill: T): (r: Ring<T>)
    ensures Valid(r) && r.Capacity() == capacity
    ensures r.count == 0 && r.index == 0
  {
    Ring(seq(capacity, _ => fill), 0, 0)
  }

  /** `a % c` for `0 <= a < 2c`, written without division. */
  function Wrap(a: nat, c: nat): (w: nat)
    requires c > 0 && a < 2 * c
    ensures w < c
  {
    if a < c then a else a - c
  }

  /** Slot of the oldest retained entry, `(index - count + capacity) % capacity`. */
  function First<T>(r: Ring<T>): (o: nat)
    requires Valid(r) && |r.items| > 0
    ensures o < |r.items|
  {
    Wrap(r.index + |r.items| - r.count, |r.items|)
  }

  /** The retained entries, oldest first: the abstraction of the buffer. */
  function Content<T>(r: Ring<T>): (s: seq<T>)
    requires Valid(r)
    ensures |s| == r.count
  {
    if |r.items| == 0 then []
    else seq(r.count, i requires 0 <= i < r.count => r.items[Wrap(First(r) + i, |r.items|)])
  }

  /** One write: store at `index`, advance it modulo the capacity, and let
      the count saturate at the capacity (overwriting the oldest entry once
      full). */
  function Push<T>(r: Ring<T>, x: T): (r': Ring<T>)
    requires Valid(r) && |r.items| > 0
    ensures Valid(r') && r'.Capacity() == r.Capacity()
    ensures r'.count == Min(r.count + 1, |r.items|)
    ensures r'.items[r.index] == x
  {
    Ring(r.items[r.index := x], (r.index + 1) % |r.items|,
         if r.count < |r.items| then r.count + 1 else r.count)
  }

  /** Several writes in order. */
  function PushAll<T>(r: Ring<T>, xs: seq<T>): (r': Ring<T>)
    requires Valid(r) && |r.items| > 0
    ensures Valid(r') && r'.Capacity() == r.Capacity()
    decreases |xs|
  {
    if xs == [] then r else PushAll(Push(r, xs[0]), xs[1..])
  }

  /** Forget every entry without touching the backing array. */
  function Clear<T>(r: Ring<T>): (r': Ring<T>)
    requires Valid(r)
    ensures Valid(r') && r'.Capacity() == r.Capacity()
    ensures Content(r') == []
  {
    Ring(r.items, 0, 0)
  }

  /** The alarm-history reader: `k = min(n, count)` entries copied from slot
      `(index - k + capacity) % capacity` onwards. */
  function LatestN<T>(r: Ring<T>, n: nat): (s: seq<T>)
    requires Valid(r)
    ensures |s| == Min(n, r.count)
  {
    var k := Min(n, r.count);
    if |r.items| == 0 then []
    else
      var start := (r.index + |r.items| - k) % |r.items|;
      seq(k, i requires 0 <= i < k => r.items[(start + i) % |r.items|])
  }

  /** The controller-history reader: `k = min(n, count)` entries copied from
      the oldest retained slot `(index - count + capacity) % capacity` onwards. */
  function OldestN<T>(r: Ring<T>, n: nat): (s: seq<T>)
    requires Valid(r)
    ensures |s| == Min(n, r.count)
  {
    var k := Min(n, r.count);
    if |r.items| == 0 then []
    else
      var start := (r.index + |r.items| - r.count) % |r.items|;
      seq(k, i requires 0 <= i < k => r.items[(start + i) % |r.items|])
  }

  // ---------------------------------------------------------------------
  // Arithmetic helpers

  /** The source's `%` agrees with `Wrap` on the range the buffer uses. */
  lemma ModIsWrap(a: nat, c: nat)
    requires c > 0 && a < 2 * c
    ensures a % c == Wrap(a, c)
  {
    if a >= c {
      assert a == c + (a - c);
    }
  }

  /** Entry `count - k + i` of the window and entry `i` of the latest `k`
      sit in the same slot. */
  lemma LatestSlot(index: nat, count: nat, c: nat, k: nat, i: nat)
    requires index < c && count <= c && i < k <= count
    ensures Wrap(Wrap(index + c - count, c) + (count - k + i), c) == Wrap(Wrap(index + c - k, c) + i, c)
  {
  }

  // ---------------------------------------------------------------------
  // The buffer against its abstraction

  /** A push appends to the retained window and drops the oldest entry
      once the window exceeds the capacity. */
  lemma {:induction false} PushContent<T>(r: Ring<T>, x: T)
    requires Valid(r) && |r.items| > 0
    ensures Content(Push(r, x)) == Tail(Content(r) + [x], |r.items|)
  {
    var c := |r.items|;
    ModIsWrap(r.index + 1, c);
    if r.count < c {
      PushContentGrow(r, x);
    } else {
      PushContentFull(r, x);
    }
  }

  lemma PushContentGrow<T>(r: Ring<T>, x: T)
    requires Valid(r) && 0 < r.count + 1 <= |r.items|
    ensures Content(Push(r, x)) == Content(r) + [x]
  {
    var c := |r.items|;
    var r' := Push(r, x);
    ModIsWrap(r.index + 1, c);
    assert First(r') == First(r);
    var o := First(r);
    forall i | 0 <= i < r'.count
      ensures Content(r')[i] == (Content(r) + [x])[i]
    {
      if i < r.count {
        assert Wrap(o + i, c) != r.index;
      } else {
        assert Wrap(o + i, c) == r.index;
      }
    }
  }

  lemma PushContentFull<T>(r: Ring<T>, x: T)
    requires Valid(r) && 0 < r.count == |r.items|
    ensures Content(Push(r, x)) == (Content(r) + [x])[1..]
  {
    var c := |r.items|;
    var r' := Push(r, x);
    ModIsWrap(r.index + 1, c);
    assert First(r) == r.index;
    assert First(r') == r'.index;
    forall i | 0 <= i < c
      ensures Content(r')[i] == (Content(r) + [x])[i + 1]
    {
      if i < c - 1 {
        assert Wrap(r'.index + i, c) == Wrap(r.index + i + 1, c);
        assert Wrap(r'.index + i, c) != r.index;
      } else {
        assert Wrap(r'.index + i, c) == r.index;
      }
    }
  }

  lemma TailTail<T>(s: seq<T>, x: T, c: nat)
    ensures Tail(Tail(s, c) + [x], c) == Tail(s + [x], c)
  {
  }

  lemma {:induction false} PushAllContent<T>(r: Ring<T>, xs: seq<T>)
    requires Valid(r) && |r.items| > 0
    ensures Content(PushAll(r, xs)) == Tail(Content(r) + xs, |r.items|)
    decreases |xs|
  {
    if xs != [] {
      var c, x, rest := |r.items|, xs[0], xs[1..];
      var r1 := Push(r, x);
      var before, mid := Content(r), Content(r1);
      assert mid == Tail(before + [x], c) by {
        PushContent(r, x);
      }
      assert Content(PushAll(r, xs)) == Tail(mid + rest, c) by {
        PushAllContent(r1, rest);
      }
      assert Tail(mid + rest, c) == Tail(before + xs, c) by {
        TailAppend(before, [x], rest, c);
        assert [x] + rest == xs;
      }
    }
  }

  lemma TailConcat<T>(s: seq<T>, ys: seq<T>, c: nat)
    ensures Tail(Tail(s, c) + ys, c) == Tail(s + ys, c)
  {
    var a := Tail(Tail(s, c) + ys, c);
    var b := Tail(s + ys, c);
    assert |a| == |b|;
    forall i | 0 <= i < |a|
      ensures a[i] == b[i]
    {
    }
  }

  /** Appending in two batches leaves the same last `c` elements as
      appending both at once. */
  lemma TailAppend<T>(prior: seq<T>, xs: seq<T>, ys: seq<T>, c: nat)
    ensures Tail(Tail(prior + xs, c) + ys, c) == Tail(prior + (xs + ys), c)
  {
    TailConcat(prior + xs, ys, c);
    assert prior + xs + ys == prior + (xs + ys);
  }

  /** The alarm reader returns the most recent `min(n, count)` entries,
      oldest first. */
  lemma {:induction false} LatestNIsSuffix<T>(r: Ring<T>, n: nat)
    requires Valid(r)
    ensures LatestN(r, n) == Content(r)[r.count - Min(n, r.count)..]
  {
    var c := |r.items|;
    if c > 0 {
      var k := Min(n, r.count);
      var start := (r.index + c - k) % c;
      ModIsWrap(r.index + c - k, c);
      var latest, window := LatestN(r, n), Content(r)[r.count - k..];
      forall i | 0 <= i < k
        ensures latest[i] == window[i]
      {
        ModIsWrap(start + i, c);
        assert latest[i] == r.items[(start + i) % c];
        assert window[i] == r.items[Wrap(First(r) + (r.count - k + i), c)];
        LatestSlot(r.index, r.count, c, k, i);
      }
      assert latest == window;
    }
  }

  /** The controller reader returns the oldest `min(n, count)` retained
      entries, oldest first. */
  lemma {:induction false} OldestNIsPrefix<T>(r: Ring<T>, n: nat)
    requires Valid(r)
    ensures OldestN(r, n) == Content(r)[..Min(n, r.count)]
  {
    var c := |r.items|;
    if c > 0 {
      var k := Min(n, r.count);
      var start := (r.index + c - r.count) % c;
      ModIsWrap(r.index + c - r.count, c);
      assert start == First(r);
      forall i | 0 <= i < k
        ensures OldestN(r, n)[i] == Content(r)[i]
      {
        ModIsWrap(start + i, c);
        assert OldestN(r, n)[i] == r.items[(start + i) % c];
        assert Content(r)[i] == r.items[Wrap(start + i, c)];
      }
    }
  }

  // ---------------------------------------------------------------------
  // The buffer against the history of everything pushed

  /** `r` retains exactly the last `capacity` items of `pushed`, in order. */
  ghost predicate Holds<T>(r: Ring<T>, pushed: seq<T>) {
    Valid(r) && |r.items| > 0 && Content(r) == Tail(pushed, |r.items|)
  }

  lemma EmptyHolds<T>(capacity: nat, fill: T)
    requires capacity > 0
    ensures Holds(Empty(capacity, fill), [])
  {
  }

  lemma ClearHolds<T>(r: Ring<T>)
    requires Valid(r) && |r.items| > 0
    ensures Holds(Clear(r), [])
  {
  }

  /** Pushing keeps the buffer in step with the history. */
  lemma PushHolds<T>(r: Ring<T>, pushed: seq<T>, x: T)
    requires Holds(r, pushed)
    ensures Holds(Push(r, x), pushed + [x])
  {
    PushContent(r, x);
    TailTail(pushed, x, |r.items|);
  }

  lemma PushAllHolds<T>(r: Ring<T>, pushed: seq<T>, xs: seq<T>)
    requires Holds(r, pushed)
    ensures Holds(PushAll(r, xs), pushed + xs)
  {
    PushAllContent(r, xs);
    TailConcat(pushed, xs, |r.items|);
  }

  /** After N pushes into a buffer of capacity C the count is min(N, C). */
  lemma HoldsCount<T>(r: Ring<T>, pushed: seq<T>)
    requires Holds(r, pushed)
    ensures r.count == Min(|pushed|, |r.items|)
  {
  }

  /** The alarm reader returns the true last `min(n, count)` pushed items. */
  lemma LatestNOfPushed<T>(r: Ring<T>, pushed: seq<T>, n: nat)
    requires Holds(r, pushed)
    ensures LatestN(r, n) == Tail(pushed, Min(n, Min(|pushed|, |r.items|)))
  {
    LatestNIsSuffix(r, n);
  }

  /** The controller reader returns the earliest retained pushes, not the
      latest ones, whenever more are retained than asked for. */
  lemma OldestNOfPushed<T>(r: Ring<T>, pushed: seq<T>, n: nat)
    requires Holds(r, pushed)
    ensures OldestN(r, n) == Tail(pushed, |r.items|)[..Min(n, r.count)]
  {
    OldestNIsPrefix(r, n);
  }

  /** Capacity 3, pushes 1..5: the last three read back as [3, 4, 5]. */
  lemma LatestNExample()
    ensures LatestN(PushAll(Empty(3, 0), [1, 2, 3, 4, 5]), 3) == [3, 4, 5]
  {
    EmptyHolds(3, 0);
    PushAllHolds(Empty(3, 0), [], [1, 2, 3, 4, 5]);
    LatestNOfPushed(PushAll(Empty(3, 0), [1, 2, 3, 4, 5]), [1, 2, 3, 4, 5], 3);
  }
}
