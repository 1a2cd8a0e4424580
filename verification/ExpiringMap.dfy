/**
 * The expiring map as it is built: a hash map of entries plus a binary min-heap of the same entries, each
 * entry carrying its heap position. Every method is proved to act on `Model()` as one step of `TimedMap`.
 */
module ExpiringMap {
  import opened Prelude
  import opened TimedMap

  class Entry<K, V> {
    const key: K
    var value: V
    var expiresAt: int
    var index: int

    constructor (key: K, value: V, expiresAt: int)
      ensures this.key == key && this.value == value && this.expiresAt == expiresAt && index == 0
    {
      this.key := key;
      this.value := value;
      this.expiresAt := expiresAt;
      index := 0;
    }
  }

  function Parent(j: int): int { (j - 1) / 2 }

  ghost predicate Indexed<K, V>(q: seq<Entry<K, V>>)
    reads q
  {
    forall i :: 0 <= i < |q| ==> q[i].index == i
  }

  ghost function Times<K, V>(q: seq<Entry<K, V>>): seq<int>
    reads q
  {
    seq(|q|, i requires 0 <= i < |q| reads q => q[i].expiresAt)
  }

  ghost predicate Heaped<K, V>(q: seq<Entry<K, V>>, n: int)
    requires n <= |q|
    reads q
  {
    forall j {:trigger Parent(j)} :: 1 <= j < n ==> q[Parent(j)].expiresAt <= q[j].expiresAt
  }

  lemma HeapedTimes<K, V>(q: seq<Entry<K, V>>, n: int)
    requires n <= |q|
    ensures Heaped(q, n) <==> Ordered(Times(q), n)
  {
    assert forall j :: 0 <= j < |q| ==> Times(q)[j] == q[j].expiresAt;
  }

  // ----- heap order, on the expiry times -----

  ghost predicate Ordered(t: seq<int>, n: int)
    requires n <= |t|
  {
    forall j {:trigger Parent(j)} :: 1 <= j < n ==> t[Parent(j)] <= t[j]
  }

  /** In heap order along every edge that does not touch `hole`. */
  ghost predicate OrderedExcept(t: seq<int>, n: int, hole: int)
    requires n <= |t|
  {
    forall j {:trigger Parent(j)} :: 1 <= j < n && j != hole && Parent(j) != hole ==> t[Parent(j)] <= t[j]
  }

  /** In heap order, except that `hole` may come before its parent. */
  ghost predicate OrderedAbove(t: seq<int>, n: int, hole: int)
    requires n <= |t|
  {
    forall j {:trigger Parent(j)} :: 1 <= j < n && j != hole ==> t[Parent(j)] <= t[j]
  }

  /** The children of `hole` do not come before its parent. */
  ghost predicate Bridged(t: seq<int>, n: int, hole: int)
    requires n <= |t| && hole < n
  {
    1 <= hole ==> forall j {:trigger Parent(j)} :: 1 <= j < n && Parent(j) == hole ==> t[Parent(hole)] <= t[j]
  }

  ghost function Swapped<T>(t: seq<T>, i: int, j: int): seq<T>
    requires 0 <= i < |t| && 0 <= j < |t|
  {
    t[i := t[j]][j := t[i]]
  }

  lemma SwapUp(t: seq<int>, n: int, j: int)
    requires 1 <= j < n <= |t| && OrderedAbove(t, n, j) && Bridged(t, n, j) && t[j] < t[Parent(j)]
    ensures OrderedAbove(Swapped(t, Parent(j), j), n, Parent(j)) && Bridged(Swapped(t, Parent(j), j), n, Parent(j))
  {
    var i := Parent(j);
    var u := Swapped(t, i, j);
    forall c | 1 <= c < n && c != i ensures u[Parent(c)] <= u[c] {
      assert t[Parent(c)] <= t[c] || c == j;
    }
    if 1 <= i {
      forall c | 1 <= c < n && Parent(c) == i ensures u[Parent(i)] <= u[c] {
        assert t[Parent(i)] <= t[i];
        assert c == j || t[i] <= t[c];
      }
    }
  }

  lemma SwapDown(t: seq<int>, n: int, i: int, c: int)
    requires 0 <= i < n <= |t| && OrderedExcept(t, n, i) && Bridged(t, n, i)
    requires 1 <= c < n && Parent(c) == i && t[c] < t[i]
    requires forall s {:trigger Parent(s)} :: 1 <= s < n && Parent(s) == i ==> t[c] <= t[s]
    ensures OrderedExcept(Swapped(t, i, c), n, c) && Bridged(Swapped(t, i, c), n, c)
    ensures Swapped(t, i, c)[i] <= Swapped(t, i, c)[c]
  {
    var u := Swapped(t, i, c);
    forall j | 1 <= j < n && j != c && Parent(j) != c ensures u[Parent(j)] <= u[j] {
      if j == i {
        assert t[Parent(i)] <= t[c];
      } else if Parent(j) == i {
        assert t[c] <= t[j];
      } else {
        assert t[Parent(j)] <= t[j];
      }
    }
    forall j | 1 <= j < n && Parent(j) == c ensures u[Parent(c)] <= u[j] {
      assert t[c] <= t[j];
    }
  }

  lemma Settled(t: seq<int>, n: int, i: int)
    requires 0 <= i < n <= |t| && OrderedExcept(t, n, i)
    requires 2 * i + 1 < n ==> t[i] <= t[2 * i + 1]
    requires 2 * i + 2 < n ==> t[i] <= t[2 * i + 2]
    ensures OrderedAbove(t, n, i)
    ensures i == 0 || t[Parent(i)] <= t[i] ==> Ordered(t, n)
  {
    assert forall j :: Parent(j) == i && 1 <= j ==> j == 2 * i + 1 || j == 2 * i + 2;
  }

  lemma SmallestChild(t: seq<int>, n: int, i: int, c: int)
    requires 0 <= i < c < n <= |t| && Parent(c) == i
    requires 2 * i + 1 < n ==> t[c] <= t[2 * i + 1]
    requires 2 * i + 2 < n ==> t[c] <= t[2 * i + 2]
    ensures forall s {:trigger Parent(s)} :: 1 <= s < n && Parent(s) == i ==> t[c] <= t[s]
  {
  }

  lemma OneChanged(t: seq<int>, u: seq<int>, i: int)
    requires 0 <= i < |t| == |u| && Ordered(t, |t|) && u == t[i := u[i]]
    ensures OrderedExcept(u, |u|, i) && Bridged(u, |u|, i)
  {
    if 1 <= i {
      forall j | 1 <= j < |u| && Parent(j) == i ensures u[Parent(i)] <= u[j] {
        assert t[Parent(i)] <= t[i] <= t[j];
      }
    }
  }

  /** Moving the last entry into place `i` disturbs only the edges at `i`. */
  lemma LastMovedIn(t: seq<int>, i: int)
    requires 0 <= i < |t| - 1 && Ordered(t, |t|)
    ensures
      var u := Swapped(t, i, |t| - 1);
      OrderedExcept(u, |t| - 1, i) && Bridged(u, |t| - 1, i)
  {
    var u := Swapped(t, i, |t| - 1);
    forall j | 1 <= j < |t| - 1 && j != i && Parent(j) != i ensures u[Parent(j)] <= u[j] {
      assert t[Parent(j)] <= t[j];
    }
    if 1 <= i {
      forall j | 1 <= j < |t| - 1 && Parent(j) == i ensures u[Parent(i)] <= u[j] {
        assert t[Parent(i)] <= t[i] <= t[j];
      }
    }
  }

  lemma {:induction false} RootIsEarliest(t: seq<int>, j: nat)
    requires j < |t| && Ordered(t, |t|)
    ensures t[0] <= t[j]
    decreases j
  {
    if 0 < j {
      RootIsEarliest(t, Parent(j));
    }
  }

  // ----- the map and the queue hold the same entries -----

  ghost predicate Linked<K, V>(entries: map<K, Entry<K, V>>, q: seq<Entry<K, V>>) {
    && (forall k :: k in entries ==> entries[k] in q && entries[k].key == k)
    && (forall i :: 0 <= i < |q| ==> q[i].key in entries && entries[q[i].key] == q[i])
  }

  lemma {:induction false} DistinctCount<T>(q: seq<T>, x: T)
    requires Distinct(q) && x in q
    ensures multiset(q)[x] == 1
  {
    var i :| 0 <= i < |q| && q[i] == x;
    assert q == q[..i] + [x] + q[i + 1..];
    assert multiset(q) == multiset(q[..i]) + multiset{x} + multiset(q[i + 1..]);
    assert x !in q[..i] && x !in q[i + 1..];
  }

  lemma Unlinked<K, V>(entries: map<K, Entry<K, V>>, q: seq<Entry<K, V>>, q': seq<Entry<K, V>>, item: Entry<K, V>)
    requires Linked(entries, q) && Distinct(q) && item in q
    requires multiset(q') == multiset(q) - multiset{item}
    ensures Linked(entries - {item.key}, q')
    ensures item !in q' && forall i :: 0 <= i < |q'| ==> q'[i] in q
    ensures |q'| < |q| && |entries - {item.key}| <= |entries|
  {
    assert (entries - {item.key}).Keys <= entries.Keys;
    SubsetSize((entries - {item.key}).Keys, entries.Keys);
    DistinctCount(q, item);
    assert |multiset(q')| == |q'| && |multiset(q)| == |q|;
    assert item !in multiset(q');
    forall i | 0 <= i < |q'| ensures q'[i] in q && q'[i] != item {
      assert q'[i] in multiset(q');
      assert q'[i] in multiset(q);
    }
    var left := entries - {item.key};
    forall k | k in left ensures left[k] in q' {
      assert left[k] in multiset(q) && left[k] != item;
      assert left[k] in multiset(q');
    }
  }

  lemma EmptyTogether<K, V>(entries: map<K, Entry<K, V>>, q: seq<Entry<K, V>>)
    requires Linked(entries, q)
    ensures q == [] <==> entries == map[]
  {
    if q != [] {
      assert q[0].key in entries;
    }
    if entries != map[] {
      var k :| k in entries;
      assert entries[k] in q;
    }
  }

  lemma Relinked<K, V>(entries: map<K, Entry<K, V>>, q: seq<Entry<K, V>>, q': seq<Entry<K, V>>)
    requires Linked(entries, q) && multiset(q') == multiset(q)
    ensures Linked(entries, q') && forall i :: 0 <= i < |q'| ==> q'[i] in q
  {
    forall i | 0 <= i < |q'| ensures q'[i] in q {
      assert q'[i] in multiset(q');
      assert q'[i] in multiset(q);
    }
    forall k | k in entries ensures entries[k] in q' {
      assert entries[k] in multiset(q);
      assert entries[k] in multiset(q');
    }
  }

  lemma NewlyLinked<K, V>(entries: map<K, Entry<K, V>>, q: seq<Entry<K, V>>, q': seq<Entry<K, V>>, item: Entry<K, V>)
    requires Linked(entries, q) && item.key !in entries
    requires multiset(q') == multiset(q) + multiset{item}
    ensures Linked(entries[item.key := item], q')
    ensures forall i :: 0 <= i < |q'| ==> q'[i] in q || q'[i] == item
  {
    forall i | 0 <= i < |q'| ensures q'[i] in q || q'[i] == item {
      assert q'[i] in multiset(q');
      assert q'[i] in multiset(q) || q'[i] == item;
    }
    var grown := entries[item.key := item];
    forall k | k in grown ensures grown[k] in q' {
      assert k == item.key || grown[k] in multiset(q);
      assert grown[k] in multiset(q');
    }
  }

  class Map<K(==, !new), V> {
    var entries: map<K, Entry<K, V>>
    var mapPeak: nat
    var queue: seq<Entry<K, V>>
    const lifetime: int
    var closed: bool

    ghost predicate Valid()
      reads this, queue
    {
      && 0 < lifetime
      && Sound()
      && |entries| <= mapPeak
      && (closed ==> entries == map[])
    }

    /** Heap order, heap positions, and the same entries in the map and in the queue. */
    ghost predicate Sound()
      reads `entries, `queue, queue
    {
      Indexed(queue) && Heaped(queue, |queue|) && Linked(entries, queue)
    }

    /** The abstract contents: what the map means to its callers. */
    ghost function Model(): map<K, Item<V>>
      requires Linked(entries, queue)
      reads `entries, `queue, queue
    {
      map k | k in entries :: Item(entries[k].value, entries[k].expiresAt)
    }

    ghost function View(): State<K, V>
      requires Linked(entries, queue)
      reads this, queue
    {
      State(Model(), closed)
    }

    constructor (lifetime: int)
      requires 0 < lifetime
      ensures Valid() && View() == State(map[], false) && this.lifetime == lifetime && fresh(queue)
    {
      this.lifetime := lifetime;
      entries, mapPeak, queue, closed := map[], 0, [], false;
    }

    // ----- container/heap over the queue -----

    method Swap(i: int, j: int)
      requires Indexed(queue) && 0 <= i < |queue| && 0 <= j < |queue|
      modifies `queue, queue`index
      ensures queue == Swapped(old(queue), i, j) && Indexed(queue)
      ensures Times(queue) == Swapped(old(Times(queue)), i, j)
      ensures multiset(queue) == old(multiset(queue))
      ensures forall k :: 0 <= k < |queue| ==> queue[k] in old(queue)
    {
      queue := queue[i := queue[j]][j := queue[i]];
      queue[i].index := i;
      queue[j].index := j;
    }

    /** Sifts an entry towards the root, within the first `n` places. */
    method Up(start: int, n: int)
      requires 0 <= start < n <= |queue| && Indexed(queue)
      requires OrderedAbove(Times(queue), n, start) && Bridged(Times(queue), n, start)
      modifies `queue, queue`index
      ensures Indexed(queue) && multiset(queue) == old(multiset(queue)) && |queue| == |old(queue)|
      ensures Ordered(Times(queue), n) && queue[n..] == old(queue[n..])
      ensures forall k :: 0 <= k < |queue| ==> queue[k] in old(queue)
    {
      var j := start;
      while true
        invariant 0 <= j < n <= |queue| && |queue| == |old(queue)|
        invariant multiset(queue) == old(multiset(queue)) && queue[n..] == old(queue[n..])
        invariant forall k :: 0 <= k < |queue| ==> queue[k] in old(queue)
        invariant Indexed(queue)
        invariant OrderedAbove(Times(queue), n, j) && Bridged(Times(queue), n, j)
        decreases j
      {
        var i := if j == 0 then 0 else Parent(j);
        if i == j || !(queue[j].expiresAt < queue[i].expiresAt) {
          return;
        }
        SwapUp(Times(queue), n, j);
        Swap(i, j);
        j := i;
      }
    }

    /** The child that should take the place of `i`, or `i` itself when it may stay. */
    method Successor(i: int, n: int) returns (next: int)
      requires 0 <= i < n <= |queue| && OrderedExcept(Times(queue), n, i)
      ensures i <= next < n
      ensures next == i ==> OrderedAbove(Times(queue), n, i)
      ensures next == i && (i == 0 || Times(queue)[Parent(i)] <= Times(queue)[i]) ==> Ordered(Times(queue), n)
      ensures i < next ==> Parent(next) == i && Times(queue)[next] < Times(queue)[i]
      ensures i < next ==>
        forall s {:trigger Parent(s)} :: 1 <= s < n && Parent(s) == i ==> Times(queue)[next] <= Times(queue)[s]
    {
      next := 2 * i + 1;
      if n <= next {
        Settled(Times(queue), n, i);
        return i;
      }
      if next + 1 < n && queue[next + 1].expiresAt < queue[next].expiresAt {
        next := next + 1;
      }
      if !(queue[next].expiresAt < queue[i].expiresAt) {
        Settled(Times(queue), n, i);
        return i;
      }
      SmallestChild(Times(queue), n, i, next);
    }

    /** Sifts an entry towards the leaves, within the first `n` places. */
    method Down(start: int, n: int) returns (moved: bool)
      requires 0 <= start < n <= |queue| && Indexed(queue)
      requires OrderedExcept(Times(queue), n, start) && Bridged(Times(queue), n, start)
      modifies `queue, queue`index
      ensures Indexed(queue) && multiset(queue) == old(multiset(queue)) && |queue| == |old(queue)|
      ensures queue[n..] == old(queue[n..])
      ensures forall k :: 0 <= k < |queue| ==> queue[k] in old(queue)
      ensures moved || start == 0 ==> Ordered(Times(queue), n)
      ensures !moved ==> OrderedAbove(Times(queue), n, start) && Bridged(Times(queue), n, start)
    {
      var i := start;
      while true
        invariant 0 <= start <= i < n <= |queue| && |queue| == |old(queue)|
        invariant multiset(queue) == old(multiset(queue)) && queue[n..] == old(queue[n..])
        invariant forall k :: 0 <= k < |queue| ==> queue[k] in old(queue)
        invariant Indexed(queue)
        invariant OrderedExcept(Times(queue), n, i) && Bridged(Times(queue), n, i)
        invariant start < i ==> Times(queue)[Parent(i)] <= Times(queue)[i]
        decreases n - i
      {
        var next := Successor(i, n);
        if next == i {
          break;
        }
        SwapDown(Times(queue), n, i, next);
        Swap(i, next);
        i := next;
      }
      moved := start < i;
    }

    /** Sift down, and up only when nothing moved down; from the root there is no up. */
    method Settle(i: int, n: int, root: bool)
      requires root ==> i == 0
      requires 0 <= i < n <= |queue| && Indexed(queue)
      requires OrderedExcept(Times(queue), n, i) && Bridged(Times(queue), n, i)
      modifies `queue, queue`index
      ensures Indexed(queue) && multiset(queue) == old(multiset(queue)) && |queue| == |old(queue)|
      ensures Heaped(queue, n)
      ensures queue[n..] == old(queue[n..])
      ensures forall k :: 0 <= k < |queue| ==> queue[k] in old(queue)
    {
      var moved := Down(i, n);
      if !root && !moved {
        Up(i, n);
      }
      HeapedTimes(queue, n);
    }

    method HeapPush(item: Entry<K, V>)
      requires Indexed(queue) && Heaped(queue, |queue|) && item !in queue
      modifies `queue, queue`index, item`index
      ensures Indexed(queue) && Heaped(queue, |queue|)
      ensures multiset(queue) == old(multiset(queue)) + multiset{item}
    {
      item.index := |queue|;
      ghost var before := Times(queue);
      queue := queue + [item];
      assert Times(queue) == before + [item.expiresAt];
      Up(|queue| - 1, |queue|);
    }

    /** Drops the last place of the slice. */
    method Pop() returns (item: Entry<K, V>)
      requires Indexed(queue) && queue != [] && Heaped(queue, |queue| - 1)
      modifies `queue, queue`index
      ensures item == old(queue[|queue| - 1]) && queue == old(queue[..|queue| - 1])
      ensures item.index == -1 && Indexed(queue) && Heaped(queue, |queue|)
      ensures multiset(queue) == old(multiset(queue)) - multiset{item}
    {
      item := queue[|queue| - 1];
      assert queue == queue[..|queue| - 1] + [item];
      item.index := -1;
      queue := queue[..|queue| - 1];
    }

    method SwapLast(i: int)
      requires Indexed(queue) && Heaped(queue, |queue|) && 0 <= i < |queue| - 1
      modifies `queue, queue`index
      ensures Indexed(queue) && multiset(queue) == old(multiset(queue)) && |queue| == |old(queue)|
      ensures queue[|queue| - 1..] == [old(queue[i])]
      ensures OrderedExcept(Times(queue), |queue| - 1, i) && Bridged(Times(queue), |queue| - 1, i)
      ensures forall k :: 0 <= k < |queue| ==> queue[k] in old(queue)
    {
      HeapedTimes(queue, |queue|);
      LastMovedIn(Times(queue), i);
      Swap(i, |queue| - 1);
    }

    /** Exchanges place `i` with the last place and restores the order of the others. */
    method MoveLast(i: int, pop: bool)
      requires pop ==> i == 0
      requires Indexed(queue) && Heaped(queue, |queue|) && 0 <= i < |queue|
      modifies `queue, queue`index
      ensures Indexed(queue) && multiset(queue) == old(multiset(queue)) && |queue| == |old(queue)|
      ensures queue[|queue| - 1] == old(queue[i]) && Heaped(queue, |queue| - 1)
      ensures forall k :: 0 <= k < |queue| ==> queue[k] in old(queue)
    {
      var n := |queue| - 1;
      if n != i {
        SwapLast(i);
        Settle(i, n, pop);
        assert queue[n] == queue[n..][0];
      }
    }

    method HeapRemove(i: int) returns (item: Entry<K, V>)
      requires Indexed(queue) && Heaped(queue, |queue|) && 0 <= i < |queue|
      modifies `queue, queue`index
      ensures item == old(queue[i]) && item.index == -1
      ensures Indexed(queue) && Heaped(queue, |queue|)
      ensures multiset(queue) == old(multiset(queue)) - multiset{item}
    {
      MoveLast(i, false);
      item := Pop();
    }

    method HeapPop() returns (item: Entry<K, V>)
      requires Indexed(queue) && Heaped(queue, |queue|) && queue != []
      modifies `queue, queue`index
      ensures item == old(queue[0]) && item.index == -1
      ensures Indexed(queue) && Heaped(queue, |queue|)
      ensures multiset(queue) == old(multiset(queue)) - multiset{item}
    {
      MoveLast(0, true);
      item := Pop();
    }

    method HeapFix(i: int)
      requires 0 <= i < |queue| && Indexed(queue)
      requires OrderedExcept(Times(queue), |queue|, i) && Bridged(Times(queue), |queue|, i)
      modifies `queue, queue`index
      ensures Indexed(queue) && Heaped(queue, |queue|) && multiset(queue) == old(multiset(queue))
    {
      Settle(i, |queue|, false);
    }

    // ----- the map -----

    /** Go maps do not shrink: after a large contraction the map is rebuilt, key by key. */
    method Compact()
      requires |entries| <= mapPeak
      modifies `entries, `mapPeak
      ensures entries == old(entries) && |entries| <= mapPeak
      ensures mapPeak == if entries == map[] then 0
                         else if old(mapPeak) < 1024 || old(mapPeak) / 4 < |entries| then old(mapPeak)
                         else |entries|
    {
      var remaining := |entries|;
      if remaining == 0 {
        entries := map[];
        mapPeak := 0;
        return;
      }
      if mapPeak < 1024 || mapPeak / 4 < remaining {
        return;
      }
      var compacted: map<K, Entry<K, V>> := map[];
      var left := entries.Keys;
      while left != {}
        invariant left <= entries.Keys
        invariant compacted == map k | k in entries && k !in left :: entries[k]
        decreases left
      {
        var k :| k in left;
        compacted := compacted[k := entries[k]];
        left := left - {k};
      }
      assert compacted == entries;
      entries := compacted;
      mapPeak := remaining;
    }

    /** Takes the entry at heap place `i` out of the queue and of the map. */
    method Unhook(i: int, pop: bool) returns (item: Entry<K, V>)
      requires Sound() && 0 <= i < |queue| && (pop ==> i == 0)
      modifies `entries, `queue, queue`index
      ensures Sound() && item == old(queue[i]) && entries == old(entries) - {item.key}
      ensures item !in queue && forall i :: 0 <= i < |queue| ==> queue[i] in old(queue)
      ensures |queue| < |old(queue)| && |entries| <= |old(entries)|
    {
      ghost var q := queue;
      if pop {
        item := HeapPop();
      } else {
        item := HeapRemove(i);
      }
      Unlinked(entries, q, queue, item);
      entries := entries - {item.key};
    }

    method Remove(item: Entry<K, V>)
      requires Valid() && item in queue
      modifies `entries, `mapPeak, `queue, queue`index
      ensures Valid() && Model() == old(Model()) - {item.key}
      ensures item !in queue && forall i :: 0 <= i < |queue| ==> queue[i] in old(queue)
    {
      var _ := Unhook(item.index, false);
      Compact();
    }

    method DropExpired(now: int) returns (removed: bool)
      requires Sound()
      modifies `entries, `queue, queue`index
      ensures Sound() && |entries| <= |old(entries)|
      ensures entries == map k | k in old(entries) && now < old(entries[k].expiresAt) :: old(entries)[k]
      ensures !removed ==> entries == old(entries)
    {
      removed := false;
      while queue != [] && queue[0].expiresAt <= now
        invariant Sound() && |entries| <= |old(entries)|
        invariant forall i :: 0 <= i < |queue| ==> queue[i] in old(queue)
        invariant entries.Keys <= old(entries).Keys
        invariant forall k :: k in entries ==> entries[k] == old(entries)[k]
        invariant forall k :: k in old(entries) && k !in entries ==> old(entries)[k].expiresAt <= now
        invariant !removed ==> entries == old(entries)
        decreases |queue|
      {
        var _ := Unhook(0, true);
        removed := true;
      }
      forall k | k in entries ensures now < entries[k].expiresAt {
        RootIsEarliest(Times(queue), entries[k].index);
      }
    }

    method RemoveExpired(now: int)
      requires Valid() && !closed
      modifies `entries, `mapPeak, `queue, queue`index
      ensures Valid() && Model() == Swept(old(Model()), now)
    {
      var removed := DropExpired(now);
      if removed {
        Compact();
      }
    }

    /** Gives a queued entry a new value and expiry, and moves it to its new heap place. */
    method Refit(item: Entry<K, V>, value: V, expiresAt: int)
      requires Sound() && item in queue
      modifies `queue, queue`index, item
      ensures Sound() && item.value == value && item.expiresAt == expiresAt
      ensures item in queue && forall i :: 0 <= i < |queue| ==> queue[i] in old(queue)
    {
      ghost var t, q, at := Times(queue), queue, item.index;
      item.value := value;
      item.expiresAt := expiresAt;
      ghost var u := Times(queue);
      assert u == t[at := expiresAt];
      OneChanged(t, u, at);
      HeapFix(item.index);
      Relinked(entries, q, queue);
    }

    method Rewrite(item: Entry<K, V>, value: V, expiresAt: int)
      requires Valid() && item in queue
      modifies `queue, queue`index, item
      ensures Valid() && Model() == old(Model())[item.key := Item(value, expiresAt)]
      ensures forall i :: 0 <= i < |queue| ==> queue[i] in old(queue)
    {
      Refit(item, value, expiresAt);
    }

    method Attach(item: Entry<K, V>)
      requires Sound() && item.key !in entries
      modifies `entries, `mapPeak, `queue, queue`index, item`index
      ensures Sound() && entries == old(entries)[item.key := item]
      ensures mapPeak == Max(old(mapPeak), |entries|)
      ensures forall i :: 0 <= i < |queue| ==> queue[i] in old(queue) || queue[i] == item
    {
      ghost var m, q := entries, queue;
      entries := entries[item.key := item];
      mapPeak := Max(mapPeak, |entries|);
      HeapPush(item);
      NewlyLinked(m, q, queue, item);
    }

    method Insert(key: K, value: V, expiresAt: int)
      requires Valid() && !closed && key !in entries
      modifies `entries, `mapPeak, `queue, queue`index
      ensures Valid() && Model() == old(Model())[key := Item(value, expiresAt)]
      ensures forall i :: 0 <= i < |queue| ==> queue[i] in old(queue) || fresh(queue[i])
    {
      var item := new Entry(key, value, expiresAt);
      Attach(item);
    }

    /** Finds the live entry of a key; an expired one is removed on the way. */
    method Find(key: K, now: int) returns (item: Option<Entry<K, V>>)
      requires Valid() && !closed
      modifies `entries, `mapPeak, `queue, queue`index
      ensures Valid() && Model() == Touch(old(Model()), key, now)
      ensures forall i :: 0 <= i < |queue| ==> queue[i] in old(queue)
      ensures item.None? ==> Current(old(Model()), key, now).None? && key !in entries
      ensures item.Some? ==>
        && key in entries && item.value == entries[key] && item.value in queue
        && Current(old(Model()), key, now) == Some(item.value.value)
    {
      if key !in entries {
        return None;
      }
      var e := entries[key];
      if e.expiresAt <= now {
        Remove(e);
        return None;
      }
      return Some(e);
    }

    /** The end of a store: `wake` when a new entry goes into an empty queue. */
    method Put(item: Option<Entry<K, V>>, key: K, value: V, expiresAt: int) returns (wake: bool)
      requires Valid() && !closed
      requires if item.Some? then key in entries && item.value == entries[key] else key !in entries
      modifies `entries, `mapPeak, `queue, queue
      ensures Valid() && Model() == old(Model())[key := Item(value, expiresAt)]
      ensures wake == (old(Model()) == map[])
      ensures forall i :: 0 <= i < |queue| ==> queue[i] in old(queue) || fresh(queue[i])
    {
      wake := item.None? && queue == [];
      EmptyTogether(entries, queue);
      assert Model().Keys == entries.Keys;
      if item.Some? {
        Rewrite(item.value, value, expiresAt);
      } else {
        Insert(key, value, expiresAt);
      }
    }

    method StoreOpen(key: K, value: V, allow: Option<V> -> bool, now: int) returns (stored: bool, wake: bool)
      requires Valid() && !closed
      modifies `entries, `mapPeak, `queue, queue
      ensures Valid() && stored == allow(Current(old(Model()), key, now))
      ensures
        var t := Touch(old(Model()), key, now);
        && Model() == (if stored then t[key := Item(value, now + lifetime)] else t)
        && wake == (stored && t == map[])
      ensures forall i :: 0 <= i < |queue| ==> queue[i] in old(queue) || fresh(queue[i])
    {
      var item := Find(key, now);
      if !allow(if item.Some? then Some(item.value.value) else None) {
        return false, false;
      }
      wake := Put(item, key, value, now + lifetime);
      stored := true;
    }

    /** `wake` tells the caller to notify the background goroutine after unlocking. */
    method StoreIf(key: K, value: V, allow: Option<V> -> bool, now: int) returns (stored: bool, wake: bool)
      requires Valid()
      modifies this, queue
      ensures Valid() && closed == old(closed)
      ensures (View(), Stored(stored)) == Step(old(View()), Store(key, value, allow, now), lifetime)
      ensures wake == (stored && Touch(old(Model()), key, now) == map[])
      ensures forall i :: 0 <= i < |queue| ==> queue[i] in old(queue) || fresh(queue[i])
    {
      if closed {
        return false, false;
      }
      stored, wake := StoreOpen(key, value, allow, now);
    }

    method LoadKey(key: K, now: int) returns (found: Option<V>)
      requires Valid()
      modifies this, queue
      ensures Valid() && closed == old(closed)
      ensures (View(), Loaded(found)) == Step(old(View()), Load(key, now), lifetime)
      ensures forall i :: 0 <= i < |queue| ==> queue[i] in old(queue)
    {
      if closed {
        return None;
      }
      var item := Find(key, now);
      found := if item.Some? then Some(item.value.value) else None;
    }

    method LoadAndRefresh(key: K, now: int) returns (found: Option<V>)
      requires Valid()
      modifies this, queue
      ensures Valid() && closed == old(closed)
      ensures (View(), Loaded(found)) == Step(old(View()), Refresh(key, now), lifetime)
      ensures forall i :: 0 <= i < |queue| ==> queue[i] in old(queue)
    {
      if closed {
        return None;
      }
      var item := Find(key, now);
      if item.None? {
        return None;
      }
      found := Some(item.value.value);
      Rewrite(item.value, item.value.value, now + lifetime);
    }

    method Len() returns (n: nat)
      requires Valid()
      ensures n == |Model()|
    {
      assert Model().Keys == entries.Keys;
      n := |entries|;
    }

    method Shut()
      requires Valid()
      modifies this
      ensures Valid() && closed
      ensures View() == Step(old(View()), Close(0), lifetime).0
    {
      if !closed {
        closed, entries, mapPeak, queue := true, map[], 0, [];
      }
    }
  }
}
