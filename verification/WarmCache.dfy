/** The bounded cache of warm templates (dispatch_warm.rs): least recently used
    first, and a preparation that fails leaves it alone. The capacity is a
    parameter here, so that caches of different sizes can be compared. */
module WarmCache {
  import opened Common

  const WARM_TEMPLATES: nat := 4

  datatype Entry<M> = Entry(key: string, mote: M)

  /** One call of `pin`. `starts` is the control check before the cache is locked,
      `prepared` what preparing the template would give, `ends` the control check
      after the cache is released. */
  datatype Call<M> = Call(key: string, starts: bool, prepared: Option<M>, ends: bool)

  function Keys<M>(entries: seq<Entry<M>>): seq<string> {
    seq(|entries|, i requires 0 <= i < |entries| => entries[i].key)
  }

  function IndexOf<M>(entries: seq<Entry<M>>, key: string): (i: nat)
    ensures i <= |entries| && (i < |entries| ==> entries[i].key == key)
    ensures forall j :: 0 <= j < i ==> entries[j].key != key
  {
    if entries == [] || entries[0].key == key then 0 else 1 + IndexOf(entries[1..], key)
  }

  /** The cache after a call. */
  function Pinned<M>(entries: seq<Entry<M>>, capacity: nat, c: Call<M>): seq<Entry<M>>
    requires capacity >= 1
  {
    var i := IndexOf(entries, c.key);
    if !c.starts then entries
    else if i < |entries| then entries[..i] + entries[i + 1..] + [entries[i]]
    else if c.prepared.None? then entries
    else (if |entries| >= capacity then entries[1..] else entries) + [Entry(c.key, c.prepared.value)]
  }

  /** The mote the caller gets. */
  function Given<M>(entries: seq<Entry<M>>, c: Call<M>): Option<M> {
    var i := IndexOf(entries, c.key);
    if !c.starts || !c.ends then None
    else if i < |entries| then Some(entries[i].mote)
    else c.prepared
  }

  ghost predicate CacheInv<M>(entries: seq<Entry<M>>, capacity: nat) {
    |entries| <= capacity && Distinct(Keys(entries))
  }

  lemma PinnedKeepsInv<M>(entries: seq<Entry<M>>, capacity: nat, c: Call<M>)
    requires capacity >= 1 && CacheInv(entries, capacity)
    ensures CacheInv(Pinned(entries, capacity, c), capacity)
  {
    var before, after := Keys(entries), Keys(Pinned(entries, capacity, c));
    var i := IndexOf(entries, c.key);
    if c.starts && i < |entries| {
      assert after == before[..i] + before[i + 1..] + [before[i]];
    } else if c.starts && c.prepared.Some? {
      assert after == (if |entries| >= capacity then before[1..] else before) + [c.key];
      assert forall j :: 0 <= j < |before| ==> before[j] != c.key;
    }
  }

  // ----------------------------------------------------------------- the object

  class Cache<M(==)> {
    var entries: seq<Entry<M>>
    const capacity: nat

    ghost predicate Valid() reads this {
      capacity >= 1 && CacheInv(entries, capacity)
    }

    constructor (capacity: nat)
      requires capacity >= 1
      ensures Valid() && entries == [] && this.capacity == capacity
    {
      entries := [];
      this.capacity := capacity;
    }

    /** `pin`. A call that gives nothing can still have moved or added a template:
        the last control check comes after the cache was changed. */
    method Pin(c: Call<M>) returns (mote: Option<M>)
      requires Valid()
      modifies this
      ensures Valid()
      ensures entries == Pinned(old(entries), capacity, c) && mote == Given(old(entries), c)
    {
      PinnedKeepsInv(entries, capacity, c);
      if !c.starts { return None; }
      var index := 0;
      while index < |entries| && entries[index].key != c.key
        invariant index <= |entries| && forall j :: 0 <= j < index ==> entries[j].key != c.key
      {
        index := index + 1;
      }
      assert index == IndexOf(entries, c.key);
      if index < |entries| {
        var entry := entries[index];
        entries := entries[..index] + entries[index + 1..];
        mote := Some(entry.mote);
        entries := entries + [entry];
      } else {
        if c.prepared.None? { return None; }
        mote := c.prepared;
        if |entries| >= capacity {
          entries := entries[1..];
        }
        entries := entries + [Entry(c.key, c.prepared.value)];
      }
      if !c.ends { return None; }
    }
  }

  // ------------------------------------------------------------------------ runs

  function Run<M>(capacity: nat, calls: seq<Call<M>>): seq<Entry<M>>
    requires capacity >= 1
  {
    if calls == [] then []
    else Pinned(Run(capacity, calls[..|calls| - 1]), capacity, calls[|calls| - 1])
  }

  /** The call found its key in the cache, or prepared it. */
  predicate Touches<M>(entries: seq<Entry<M>>, c: Call<M>) {
    c.starts && (c.key in Keys(entries) || c.prepared.Some?)
  }

  /** The keys that hit or prepared, in order. */
  function Touched<M>(capacity: nat, calls: seq<Call<M>>): seq<string>
    requires capacity >= 1
  {
    if calls == [] then []
    else
      var before, c := calls[..|calls| - 1], calls[|calls| - 1];
      Touched(capacity, before) + (if Touches(Run(capacity, before), c) then [c.key] else [])
  }

  /** The distinct keys of a history, by last occurrence: the most recent last. */
  function Recent(keys: seq<string>): seq<string> {
    if keys == [] then []
    else
      var last := |keys| - 1;
      Without(Recent(keys[..last]), keys[last]) + [keys[last]]
  }

  function Without(keys: seq<string>, k: string): seq<string> {
    if keys == [] then []
    else
      var last := |keys| - 1;
      Without(keys[..last], k) + (if keys[last] == k then [] else [keys[last]])
  }

  function LastN(keys: seq<string>, n: nat): seq<string> {
    if |keys| <= n then keys else keys[|keys| - n..]
  }

  lemma WithoutAppend(keys: seq<string>, x: string, k: string)
    ensures Without(keys + [x], k) == Without(keys, k) + (if x == k then [] else [x])
  {
    assert (keys + [x])[..|keys|] == keys;
  }

  lemma {:induction false} WithoutMembers(keys: seq<string>, k: string, x: string)
    ensures x in Without(keys, k) <==> x in keys && x != k
  {
    if keys != [] {
      var last := |keys| - 1;
      assert keys == keys[..last] + [keys[last]];
      WithoutMembers(keys[..last], k, x);
    }
  }

  lemma {:induction false} WithoutAbsent(keys: seq<string>, k: string)
    requires k !in keys
    ensures Without(keys, k) == keys
  {
    if keys != [] {
      var last := |keys| - 1;
      assert keys == keys[..last] + [keys[last]];
      WithoutAbsent(keys[..last], k);
    }
  }

  /** Removing a key from distinct keys removes its one place. */
  lemma {:induction false} WithoutAt(keys: seq<string>, i: nat)
    requires i < |keys| && Distinct(keys)
    ensures Without(keys, keys[i]) == keys[..i] + keys[i + 1..]
  {
    var last := |keys| - 1;
    if i < last {
      WithoutAt(keys[..last], i);
      assert keys[..last][..i] == keys[..i];
      assert keys[i + 1..] == keys[..last][i + 1..] + [keys[last]];
    } else {
      WithoutAbsent(keys[..last], keys[last]);
      assert keys[..last] == keys[..i] + keys[i + 1..];
    }
  }

  lemma {:induction false} WithoutJoin(a: seq<string>, b: seq<string>, k: string)
    ensures Without(a + b, k) == Without(a, k) + Without(b, k)
  {
    if b == [] {
      assert a + b == a;
    } else {
      var last := |b| - 1;
      WithoutJoin(a, b[..last], k);
      assert a + b == a + b[..last] + [b[last]];
      WithoutAppend(a + b[..last], b[last], k);
    }
  }

  lemma {:induction false} RecentMembers(keys: seq<string>, x: string)
    ensures x in Recent(keys) <==> x in keys
  {
    if keys != [] {
      var last := |keys| - 1;
      assert keys == keys[..last] + [keys[last]];
      RecentMembers(keys[..last], x);
      WithoutMembers(Recent(keys[..last]), keys[last], x);
    }
  }

  /** Every two neighbours of the list, near or far, by when they were last used. */
  ghost predicate ByLastUse(recent: seq<string>, keys: seq<string>) {
    forall i, j :: 0 <= i < j < |recent| ==> LastUse(keys, recent[i]) < LastUse(keys, recent[j])
  }

  /** What `Recent` is, said without recursion: every key of the history once, and
      a key stands later exactly when its last occurrence is later. */
  lemma {:induction false} RecentIsByLastUse(keys: seq<string>)
    ensures Distinct(Recent(keys)) && ByLastUse(Recent(keys), keys)
    ensures forall k :: k in Recent(keys) <==> k in keys
  {
    forall k ensures k in Recent(keys) <==> k in keys { RecentMembers(keys, k); }
    if keys != [] {
      var last := |keys| - 1;
      RecentIsByLastUse(keys[..last]);
      OneMoreUse(Recent(keys[..last]), keys[..last], keys[last]);
      assert keys == keys[..last] + [keys[last]];
    }
  }

  lemma RestKeepsOrder(recent: seq<string>, keys: seq<string>, k: string)
    requires Distinct(recent) && ByLastUse(recent, keys)
    ensures Distinct(Without(recent, k)) && ByLastUse(Without(recent, k), keys) && k !in Without(recent, k)
  {
    WithoutMembers(recent, k, k);
    if k in recent {
      var i :| 0 <= i < |recent| && recent[i] == k;
      WithoutAt(recent, i);
    } else {
      WithoutAbsent(recent, k);
    }
  }

  lemma UseUnchanged(keys: seq<string>, k: string, x: string)
    ensures LastUse(keys + [k], x) == if x == k then |keys| + 1 else LastUse(keys, x)
    ensures LastUse(keys, x) <= |keys|
  {
    assert (keys + [k])[..|keys|] == keys;
    LastUseBounded(keys, x);
  }

  lemma OneMoreUse(recent: seq<string>, keys: seq<string>, k: string)
    requires Distinct(recent) && ByLastUse(recent, keys)
    ensures Distinct(Without(recent, k) + [k]) && ByLastUse(Without(recent, k) + [k], keys + [k])
  {
    RestKeepsOrder(recent, keys, k);
    var r := Without(recent, k) + [k];
    forall i, j | 0 <= i < j < |r| ensures r[i] != r[j] && LastUse(keys + [k], r[i]) < LastUse(keys + [k], r[j]) {
      UseUnchanged(keys, k, r[i]);
      UseUnchanged(keys, k, r[j]);
      assert r[i] == Without(recent, k)[i];
    }
  }

  /** One more than the last index of a key, or zero. */
  function LastUse(keys: seq<string>, k: string): nat {
    if keys == [] then 0
    else if keys[|keys| - 1] == k then |keys|
    else LastUse(keys[..|keys| - 1], k)
  }

  lemma {:induction false} LastUseBounded(keys: seq<string>, k: string)
    ensures LastUse(keys, k) <= |keys|
  {
    if keys != [] { LastUseBounded(keys[..|keys| - 1], k); }
  }

  // --------------------------------------------------------------- main theorems

  lemma {:induction false} RunInv<M>(capacity: nat, calls: seq<Call<M>>)
    requires capacity >= 1
    ensures CacheInv(Run(capacity, calls), capacity)
  {
    if calls != [] {
      RunInv(capacity, calls[..|calls| - 1]);
      PinnedKeepsInv(Run(capacity, calls[..|calls| - 1]), capacity, calls[|calls| - 1]);
    }
  }

  /** A touch of the cache on keys alone. */
  function Touch(keys: seq<string>, capacity: nat, k: string): seq<string>
    requires capacity >= 1
  {
    if k in keys then Without(keys, k) + [k]
    else (if |keys| >= capacity then keys[1..] else keys) + [k]
  }

  lemma HitTouches<M>(entries: seq<Entry<M>>, i: nat)
    requires i < |entries| && Distinct(Keys(entries))
    ensures Keys(entries[..i] + entries[i + 1..] + [entries[i]])
            == Without(Keys(entries), entries[i].key) + [entries[i].key]
  {
    var keys := Keys(entries);
    WithoutAt(keys, i);
    assert Keys(entries[..i] + entries[i + 1..] + [entries[i]]) == keys[..i] + keys[i + 1..] + [entries[i].key];
  }

  lemma MissTouches<M>(entries: seq<Entry<M>>, capacity: nat, e: Entry<M>)
    requires capacity >= 1
    ensures Keys((if |entries| >= capacity then entries[1..] else entries) + [e])
            == (if |Keys(entries)| >= capacity then Keys(entries)[1..] else Keys(entries)) + [e.key]
  {
  }

  lemma FoundIff<M>(entries: seq<Entry<M>>, key: string)
    ensures IndexOf(entries, key) < |entries| <==> key in Keys(entries)
  {
    var i := IndexOf(entries, key);
    if i < |entries| {
      assert Keys(entries)[i] == key;
    }
  }

  lemma PinnedTouches<M>(entries: seq<Entry<M>>, capacity: nat, c: Call<M>)
    requires capacity >= 1 && CacheInv(entries, capacity)
    ensures Keys(Pinned(entries, capacity, c)) ==
              if Touches(entries, c) then Touch(Keys(entries), capacity, c.key) else Keys(entries)
  {
    FoundIff(entries, c.key);
    var i := IndexOf(entries, c.key);
    if i < |entries| {
      HitTouches(entries, i);
    } else if c.prepared.Some? {
      MissTouches(entries, capacity, Entry(c.key, c.prepared.value));
    }
  }

  lemma TouchOfLastN(recent: seq<string>, capacity: nat, k: string)
    requires capacity >= 1 && Distinct(recent)
    ensures Touch(LastN(recent, capacity), capacity, k) == LastN(Without(recent, k) + [k], capacity)
  {
    var shown := LastN(recent, capacity);
    var hidden := recent[..|recent| - |shown|];
    assert recent == hidden + shown;
    if k in shown {
      TouchSeen(hidden, shown, capacity, k);
    } else {
      WithoutJoin(hidden, shown, k);
      WithoutAbsent(shown, k);
      TouchUnseen(Without(hidden, k), shown, capacity, k, hidden == []);
    }
  }

  lemma LastOfJoin(a: seq<string>, b: seq<string>, n: nat)
    requires |b| <= n && (a != [] ==> |b| == n)
    ensures LastN(a + b, n) == b
  {
  }

  lemma DistinctParts(a: seq<string>, b: seq<string>)
    requires Distinct(a + b)
    ensures Distinct(b) && forall x <- b :: x !in a
  {
    forall j, k | 0 <= j < k < |b| ensures b[j] != b[k] {
      assert (a + b)[|a| + j] == b[j] && (a + b)[|a| + k] == b[k];
    }
    forall j, k | 0 <= j < |a| && 0 <= k < |b| ensures a[j] != b[k] {
      assert (a + b)[j] == a[j] && (a + b)[|a| + k] == b[k];
    }
  }

  lemma WithoutOne(keys: seq<string>, k: string)
    requires Distinct(keys) && k in keys
    ensures |Without(keys, k)| + 1 == |keys|
  {
    var i :| 0 <= i < |keys| && keys[i] == k;
    WithoutAt(keys, i);
  }

  /** A shown key moves to the end; what is not shown stays so. */
  lemma TouchSeen(hidden: seq<string>, shown: seq<string>, capacity: nat, k: string)
    requires Distinct(hidden + shown) && k in shown
    requires |shown| <= capacity && (hidden != [] ==> |shown| == capacity)
    ensures Without(shown, k) + [k] == LastN(Without(hidden + shown, k) + [k], capacity)
  {
    DistinctParts(hidden, shown);
    WithoutOne(shown, k);
    WithoutJoin(hidden, shown, k);
    WithoutAbsent(hidden, k);
    LastOfJoin(hidden, Without(shown, k) + [k], capacity);
    assert hidden + Without(shown, k) + [k] == hidden + (Without(shown, k) + [k]);
  }

  /** A key not shown drops the oldest shown one when the list is full. */
  lemma TouchUnseen(hidden: seq<string>, shown: seq<string>, capacity: nat, k: string, complete: bool)
    requires capacity >= 1 && |shown| <= capacity && (complete ==> hidden == []) && (!complete ==> |shown| == capacity)
    ensures (if |shown| >= capacity then shown[1..] else shown) + [k] == LastN(hidden + shown + [k], capacity)
  {
  }

  /** Refinement: after any calls, preparations failing wherever they may, the
      cache holds the last (at most `capacity`) distinct keys that hit or were
      prepared, the most recent last. */
  lemma {:induction false} CacheIsTheRecentKeys<M>(capacity: nat, calls: seq<Call<M>>)
    requires capacity >= 1
    ensures Keys(Run(capacity, calls)) == LastN(Recent(Touched(capacity, calls)), capacity)
  {
    if calls != [] {
      var before, c := calls[..|calls| - 1], calls[|calls| - 1];
      CacheIsTheRecentKeys(capacity, before);
      RunInv(capacity, before);
      PinnedTouches(Run(capacity, before), capacity, c);
      var history := Touched(capacity, before);
      if Touches(Run(capacity, before), c) {
        RecentIsByLastUse(history);
        TouchOfLastN(Recent(history), capacity, c.key);
        assert (history + [c.key])[..|history|] == history;
      } else {
        assert Touched(capacity, calls) == history;
      }
    }
  }

  /** The size the dispatcher runs with: never more than four templates, and they are
      the last four distinct keys that hit or were prepared. */
  lemma WarmTemplatesAreTheLastFour<M>(calls: seq<Call<M>>)
    ensures |Run(WARM_TEMPLATES, calls)| <= 4
    ensures Keys(Run(WARM_TEMPLATES, calls)) == LastN(Recent(Touched(WARM_TEMPLATES, calls)), 4)
  {
    RunInv(WARM_TEMPLATES, calls);
    CacheIsTheRecentKeys(WARM_TEMPLATES, calls);
  }

  /** `a` is what is left of `b` after deleting some elements. */
  predicate Within(a: seq<string>, b: seq<string>) {
    a == [] || (b != [] && if a[|a| - 1] == b[|b| - 1] then Within(a[..|a| - 1], b[..|b| - 1])
                                                       else Within(a, b[..|b| - 1]))
  }

  lemma {:induction false} WithinMembers(a: seq<string>, b: seq<string>)
    requires Within(a, b)
    ensures |a| <= |b| && (forall k <- a :: k in b) && (|a| == |b| ==> a == b)
  {
    if a != [] {
      var x, y := |a| - 1, |b| - 1;
      assert a == a[..x] + [a[x]] && b == b[..y] + [b[y]];
      if a[x] == b[y] { WithinMembers(a[..x], b[..y]); } else { WithinMembers(a, b[..y]); }
    }
  }

  lemma {:induction false} WithinItself(a: seq<string>)
    ensures Within(a, a)
  {
    if a != [] { WithinItself(a[..|a| - 1]); }
  }

  /** Matching greedily from the back loses nothing. */
  lemma {:induction false} WithinShorter(a: seq<string>, b: seq<string>)
    requires a != [] && Within(a, b)
    ensures b != [] && Within(a[..|a| - 1], b[..|b| - 1])
    decreases |b|, 0
  {
    var x, y := |a| - 1, |b| - 1;
    if a[x] != b[y] {
      WithinShorter(a, b[..y]);
      WithinGrows(a[..x], b[..y][..y - 1], b[..y][y - 1]);
      assert b[..y][..y - 1] + [b[..y][y - 1]] == b[..y];
    }
  }

  lemma {:induction false} WithinGrows(a: seq<string>, b: seq<string>, k: string)
    requires Within(a, b)
    ensures Within(a, b + [k])
    decreases |b|, 1
  {
    assert (b + [k])[..|b|] == b;
    if a != [] && a[|a| - 1] == k {
      WithinShorter(a, b);
      WithinGrows(a[..|a| - 1], b[..|b| - 1], b[|b| - 1]);
      assert b[..|b| - 1] + [b[|b| - 1]] == b;
    }
  }

  lemma WithinAppend(a: seq<string>, b: seq<string>, k: string)
    requires Within(a, b)
    ensures Within(a + [k], b + [k])
  {
    assert (a + [k])[..|a|] == a && (b + [k])[..|b|] == b;
  }

  lemma {:induction false} WithinWithout(a: seq<string>, b: seq<string>, k: string)
    requires Within(a, b)
    ensures Within(Without(a, k), Without(b, k))
  {
    if a != [] {
      var x, y := |a| - 1, |b| - 1;
      if a[x] == b[y] {
        WithinWithout(a[..x], b[..y], k);
        WithinAppend(Without(a[..x], k), Without(b[..y], k), a[x]);
        SameOrAppended(Without(a[..x], k), Without(b[..y], k), a[x], k);
      } else {
        WithinWithout(a, b[..y], k);
        WithinGrows(Without(a, k), Without(b[..y], k), b[y]);
        assert Without(b[..y], k) + [] == Without(b[..y], k);
      }
    }
  }

  lemma SameOrAppended(a: seq<string>, b: seq<string>, x: string, k: string)
    requires Within(a, b) && Within(a + [x], b + [x])
    ensures Within(a + (if x == k then [] else [x]), b + (if x == k then [] else [x]))
  {
    assert a + [] == a && b + [] == b;
  }

  lemma {:induction false} WithinDropFront(a: seq<string>, b: seq<string>)
    requires a != [] && Within(a, b)
    ensures b != [] && Within(a[1..], b[1..])
    decreases |b|
  {
    var x, y := |a| - 1, |b| - 1;
    if a[x] == b[y] {
      if x > 0 {
        WithinDropFront(a[..x], b[..y]);
        assert a[..x][1..] + [a[x]] == a[1..] && b[..y][1..] + [b[y]] == b[1..];
        WithinAppend(a[..x][1..], b[..y][1..], a[x]);
      }
    } else {
      WithinDropFront(a, b[..y]);
      assert b[..y][1..] + [b[y]] == b[1..];
      WithinGrows(a[1..], b[..y][1..], b[y]);
    }
  }

  /** Either cache has room for everything so far, or the small one is full. */
  ghost predicate Nested(small: seq<string>, large: seq<string>, n: nat) {
    Within(small, large) && (|small| == n || small == large) && |small| <= n && |large| <= n + 1
  }

  lemma BothTouch(small: seq<string>, large: seq<string>, n: nat, k: string)
    requires n >= 1 && Nested(small, large, n) && Distinct(small) && Distinct(large)
    ensures Nested(Touch(small, n, k), Touch(large, n + 1, k), n)
  {
    WithinMembers(small, large);
    if k in small {
      WithinWithout(small, large, k);
      WithinAppend(Without(small, k), Without(large, k), k);
      var i :| 0 <= i < |small| && small[i] == k;
      var j :| 0 <= j < |large| && large[j] == k;
      WithoutAt(small, i);
      WithoutAt(large, j);
    } else if k in large {
      var j :| 0 <= j < |large| && large[j] == k;
      WithoutAt(large, j);
      WithinWithout(small, large, k);
      WithoutAbsent(small, k);
      FrontGone(small, Without(large, k));
      WithinAppend(small[1..], Without(large, k), k);
    } else if small == large {
      WithinItself(small);
      WithinItself(small + [k]);
      if |small| == n {
        FrontGone(small, large);
        WithinAppend(small[1..], large, k);
      }
    } else {
      WithinDropFront(small, large);
      WithinAppend(small[1..], large[1..], k);
    }
  }

  lemma {:induction false} FrontGone(a: seq<string>, b: seq<string>)
    requires a != [] && Within(a, b)
    ensures Within(a[1..], b)
    decreases |b|
  {
    WithinDropFront(a, b);
    DropFrontGrows(a[1..], b);
  }

  lemma {:induction false} DropFrontGrows(a: seq<string>, b: seq<string>)
    requires b != [] && Within(a, b[1..])
    ensures Within(a, b)
    decreases |b|
  {
    if a != [] {
      var x, y := |a| - 1, |b| - 1;
      WithinMembers(a, b[1..]);
      assert b[1..][..y - 1] == b[..y][1..];
      if a[x] == b[y] {
        DropFrontGrows(a[..x], b[..y]);
      } else {
        DropFrontGrows(a, b[..y]);
      }
    }
  }

  lemma OnlyLargeTouches(small: seq<string>, large: seq<string>, n: nat, k: string)
    requires n >= 1 && Nested(small, large, n) && Distinct(small) && Distinct(large) && k !in small && k in large
    ensures Nested(small, Touch(large, n + 1, k), n)
  {
    var j :| 0 <= j < |large| && large[j] == k;
    WithoutAt(large, j);
    WithinWithout(small, large, k);
    WithoutAbsent(small, k);
    WithinGrows(small, Without(large, k), k);
  }

  /** One call keeps the small cache inside the large one. */
  lemma PinnedNest<M>(n: nat, small: seq<Entry<M>>, large: seq<Entry<M>>, c: Call<M>)
    requires n >= 1 && CacheInv(small, n) && CacheInv(large, n + 1) && Nested(Keys(small), Keys(large), n)
    ensures Nested(Keys(Pinned(small, n, c)), Keys(Pinned(large, n + 1, c)), n)
  {
    PinnedTouches(small, n, c);
    PinnedTouches(large, n + 1, c);
    WithinMembers(Keys(small), Keys(large));
    if Touches(small, c) {
      BothTouch(Keys(small), Keys(large), n, c.key);
    } else if Touches(large, c) {
      OnlyLargeTouches(Keys(small), Keys(large), n, c.key);
    }
  }

  lemma {:induction false} CachesNest<M>(n: nat, calls: seq<Call<M>>)
    requires n >= 1
    ensures Nested(Keys(Run(n, calls)), Keys(Run(n + 1, calls)), n)
  {
    if calls != [] {
      var before, c := calls[..|calls| - 1], calls[|calls| - 1];
      CachesNest(n, before);
      RunInv(n, before);
      RunInv(n + 1, before);
      PinnedNest(n, Run(n, before), Run(n + 1, before), c);
    }
  }

  /** Inclusion: after the same calls, whatever a cache of `n` templates would
      find, one of `n + 1` finds too. */
  lemma HitsGrowWithCapacity<M>(n: nat, calls: seq<Call<M>>, key: string)
    requires n >= 1 && key in Keys(Run(n, calls))
    ensures key in Keys(Run(n + 1, calls))
  {
    CachesNest(n, calls);
    WithinMembers(Keys(Run(n, calls)), Keys(Run(n + 1, calls)));
  }

  /** The mote prepared last for a key, by a call that really prepared. */
  function LastPrepared<M>(capacity: nat, calls: seq<Call<M>>, key: string): Option<M>
    requires capacity >= 1
  {
    if calls == [] then None
    else
      var before, c := calls[..|calls| - 1], calls[|calls| - 1];
      if c.key == key && c.starts && c.prepared.Some? && key !in Keys(Run(capacity, before)) then c.prepared
      else LastPrepared(capacity, before, key)
  }

  /** A hit gives the very template that was prepared last under that key. */
  lemma {:induction false} HitsGiveTheLastPreparation<M>(capacity: nat, calls: seq<Call<M>>)
    requires capacity >= 1
    ensures forall e <- Run(capacity, calls) :: LastPrepared(capacity, calls, e.key) == Some(e.mote)
  {
    if calls != [] {
      var before, c := calls[..|calls| - 1], calls[|calls| - 1];
      HitsGiveTheLastPreparation(capacity, before);
      RunInv(capacity, before);
      var was := Run(capacity, before);
      forall e <- Run(capacity, calls) ensures LastPrepared(capacity, calls, e.key) == Some(e.mote) {
        if e in was {
          var i :| 0 <= i < |was| && was[i] == e;
          assert Keys(was)[i] == e.key;
        } else {
          FoundIff(was, c.key);
        }
      }
    }
  }

  /** What the caller of the next call gets, after any calls: if its key is warm, the
      template prepared last under that very key; if not, what its own preparation
      gives; and nothing if its control is over at either end. */
  lemma CallersGetTheirTemplate<M>(capacity: nat, calls: seq<Call<M>>, c: Call<M>)
    requires capacity >= 1
    ensures Given(Run(capacity, calls), c) ==
              if !c.starts || !c.ends then None
              else if c.key in Keys(Run(capacity, calls)) then LastPrepared(capacity, calls, c.key)
              else c.prepared
  {
    var entries := Run(capacity, calls);
    RunInv(capacity, calls);
    HitsGiveTheLastPreparation(capacity, calls);
    FoundIff(entries, c.key);
    var i := IndexOf(entries, c.key);
    if i < |entries| { assert entries[i] in entries; }
  }

  /** The cache changes under a call that gives nothing exactly when the control
      ran out after the template was found or prepared. */
  lemma ErrorChangesCacheIff<M>(entries: seq<Entry<M>>, capacity: nat, c: Call<M>)
    requires capacity >= 1 && CacheInv(entries, capacity) && Given(entries, c).None?
    ensures Pinned(entries, capacity, c) != entries <==>
              && Touches(entries, c) && !c.ends
              && !(entries != [] && entries[|entries| - 1].key == c.key)
  {
    var i := IndexOf(entries, c.key);
    var after := Pinned(entries, capacity, c);
    if c.starts && i < |entries| {
      assert Keys(entries)[i] == c.key;
      if i < |entries| - 1 {
        assert after[|after| - 1].key == c.key;
        assert Keys(entries)[|entries| - 1] != Keys(entries)[i];
      } else {
        assert after == entries;
      }
    } else if c.starts && c.prepared.Some? {
      assert after[|after| - 1].key == c.key;
      assert entries != [] ==> entries[|entries| - 1].key != c.key;
      assert |after| == |entries| + 1 || after[|after| - 1] != entries[|entries| - 1];
    }
  }

  /** Such a call: an empty cache, a template prepared, the control over by the end.
      The caller is refused and the next caller hits. */
  lemma AnErrorThatFilledTheCache(key: string, mote: int)
    ensures var c := Call(key, true, Some(mote), false);
            && Given<int>([], c).None?
            && Pinned<int>([], WARM_TEMPLATES, c) == [Entry(key, mote)]
            && Given(Pinned<int>([], WARM_TEMPLATES, c), Call(key, true, None, true)) == Some(mote)
  {
  }
}
