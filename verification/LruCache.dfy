/** LRUCache and the duplicate filter that uses it (LunaHook/engine32/EME.cpp). */
module LruCache {

  predicate NoDuplicates<Key(==,!new)>(s: seq<Key>) { forall i, j :: 0 <= i < j < |s| ==> s[i] != s[j] }

  function Elements<Key>(s: seq<Key>): set<Key> { set x | x in s }

  function Without<Key(==,!new)>(s: seq<Key>, x: Key): (r: seq<Key>)
    ensures |r| <= |s|
    ensures forall y :: y in r <==> y in s && y != x
  {
    if s == [] then []
    else if s[0] == x then Without(s[1..], x)
    else [s[0]] + Without(s[1..], x)
  }

  /** The distinct keys of a history, most recently used first. */
  function Recent<Key(==,!new)>(history: seq<Key>): (r: seq<Key>)
    ensures forall y :: y in r <==> y in history
  {
    if history == [] then []
    else
      var n := |history| - 1;
      assert history == history[..n] + [history[n]];
      [history[n]] + Without(Recent(history[..n]), history[n])
  }

  function Take<Key>(s: seq<Key>, n: nat): seq<Key> { if |s| <= n then s else s[..n] }

  // ---------- facts about the key list ----------

  lemma {:induction false} WithoutAbsent<Key(!new)>(s: seq<Key>, x: Key)
    requires x !in s
    ensures Without(s, x) == s
  {
    if s != [] {
      WithoutAbsent(s[1..], x);
      assert s == [s[0]] + s[1..];
    }
  }

  lemma {:induction false} WithoutAt<Key(!new)>(s: seq<Key>, i: nat)
    requires i < |s| && NoDuplicates(s)
    ensures Without(s, s[i]) == s[..i] + s[i + 1..]
  {
    if i == 0 {
      assert s[0] !in s[1..];
      WithoutAbsent(s[1..], s[0]);
    } else {
      WithoutAt(s[1..], i - 1);
      assert s[..i] + s[i + 1..] == [s[0]] + (s[1..][..i - 1] + s[1..][i..]);
    }
  }

  lemma WithoutKeepsDistinct<Key(!new)>(s: seq<Key>, x: Key)
    requires NoDuplicates(s)
    ensures NoDuplicates([x] + Without(s, x))
  {
    if x in s {
      var i :| 0 <= i < |s| && s[i] == x;
      WithoutAt(s, i);
    } else {
      WithoutAbsent(s, x);
    }
  }

  lemma {:induction false} RecentIsDistinct<Key(!new)>(history: seq<Key>)
    ensures NoDuplicates(Recent(history))
  {
    if history != [] {
      var n := |history| - 1;
      RecentIsDistinct(history[..n]);
      WithoutKeepsDistinct(Recent(history[..n]), history[n]);
    }
  }

  lemma TakeRotated<Key(!new)>(r: seq<Key>, i: nat, n: nat)
    requires i < n < |r|
    ensures ([r[i]] + (r[..i] + r[i + 1..]))[..n] == [r[i]] + (r[..n][..i] + r[..n][i + 1..])
  {
    var a, b := ([r[i]] + (r[..i] + r[i + 1..]))[..n], [r[i]] + (r[..n][..i] + r[..n][i + 1..]);
    assert |a| == |b| == n;
    forall k | 0 <= k < n
      ensures a[k] == b[k]
    {
      assert a[k] == if k == 0 then r[i] else if k <= i then r[k - 1] else r[k];
    }
  }

  /** Using a kept key: it moves to the front. */
  lemma TakeAfterHit<Key(!new)>(r: seq<Key>, i: nat, n: nat)
    requires NoDuplicates(r) && i < |r| && i < n
    ensures Take([r[i]] + Without(r, r[i]), n) == [r[i]] + Without(Take(r, n), r[i])
  {
    hide Without;
    WithoutAt(r, i);
    if |r| > n {
      assert r[..n][i] == r[i];
      WithoutAt(r[..n], i);
      TakeRotated(r, i, n);
    }
  }

  /** Using any other key: it comes to the front and the last kept key may fall out. */
  lemma TakeAfterMiss<Key(!new)>(r: seq<Key>, x: Key, n: nat)
    requires NoDuplicates(r) && 1 <= n && x !in Take(r, n)
    ensures var kept := Take(r, n);
            Take([x] + Without(r, x), n) == [x] + if |kept| == n then kept[..n - 1] else kept
  {
    if x in r {
      var i :| 0 <= i < |r| && r[i] == x;
      InTake(r, i, n);
      WithoutAt(r, i);
      assert ([x] + (r[..i] + r[i + 1..]))[..n] == [x] + r[..n][..n - 1];
    } else {
      WithoutAbsent(r, x);
    }
  }

  /** Using a key changes the first keys of the recency list as the cache changes its list. */
  lemma TakeAfterUse<Key(!new)>(r: seq<Key>, x: Key, n: nat)
    requires NoDuplicates(r) && 1 <= n
    ensures var kept := Take(r, n);
            Take([x] + Without(r, x), n)
            == if x in kept then [x] + Without(kept, x)
               else [x] + if |kept| == n then kept[..n - 1] else kept
  {
    if x in Take(r, n) {
      var i :| 0 <= i < |Take(r, n)| && Take(r, n)[i] == x;
      TakeAfterHit(r, i, n);
    } else {
      TakeAfterMiss(r, x, n);
    }
  }

  /** A key stands behind exactly the distinct keys used since its last use. */
  lemma {:induction false} PositionIsDistinctSince<Key(!new)>(history: seq<Key>, last: nat, p: nat)
    requires last < |history| && history[last] !in history[last + 1..]
    requires p < |Recent(history)| && Recent(history)[p] == history[last]
    ensures p == |Elements(history[last + 1..])|
  {
    RecentIsDistinct(history);
    RecentSplits(history, last);
    var since := Recent(history[last + 1..]);
    RecentIsDistinct(history[last + 1..]);
    CountDistinct(since);
    assert Elements(since) == Elements(history[last + 1..]);
    assert Recent(history)[|since|] == history[last];
  }

  lemma {:induction false} CountDistinct<Key(!new)>(s: seq<Key>)
    requires NoDuplicates(s)
    ensures |Elements(s)| == |s|
  {
    if s != [] {
      CountDistinct(s[1..]);
      assert Elements(s) == {s[0]} + Elements(s[1..]);
    }
  }

  /** The recency list starts with the keys used since the last use of a key, then has the key. */
  lemma {:induction false} RecentSplits<Key(!new)>(history: seq<Key>, last: nat)
    requires last < |history| && history[last] !in history[last + 1..]
    ensures var since := Recent(history[last + 1..]);
            |since| < |Recent(history)| && Recent(history)[..|since|] == since && Recent(history)[|since|] == history[last]
    decreases |history|
  {
    var n := |history| - 1;
    if last == n {
      assert history[n + 1..] == [];
    } else {
      var x, front := history[n], history[..n];
      assert front[last + 1..] == history[last + 1..][..n - last - 1];
      RecentSplits(front, last);
      var since := Recent(front[last + 1..]);
      var r := Recent(front);
      assert history[last + 1..] == front[last + 1..] + [x];
      RecentIsDistinct(front);
      RecentIsDistinct(front[last + 1..]);
      WithoutPrefix(r, |since|, x, history[last]);
    }
  }

  /** Removing a key from a list keeps the split at another key. */
  lemma WithoutPrefix<Key(!new)>(r: seq<Key>, k: nat, x: Key, y: Key)
    requires NoDuplicates(r) && k < |r| && r[k] == y && x != y
    ensures var since := Without(r[..k], x);
            |since| < |Without(r, x)| && Without(r, x)[..|since|] == since && Without(r, x)[|since|] == y
  {
    if i :| 0 <= i < |r| && r[i] == x {
      WithoutAt(r, i);
      if i < k {
        WithoutAt(r[..k], i);
      } else {
        WithoutAbsent(r[..k], x);
      }
    } else {
      WithoutAbsent(r, x);
      WithoutAbsent(r[..k], x);
    }
  }

  // ---------- the cache ----------

  /** The std::list and the domain of the unordered_map; stored iterators point at their own keys. */
  class LRUCache<Key(==,!new)> {
    const capacity: nat
    var cache: set<Key>
    var keys: seq<Key>

    ghost predicate Valid()
      reads this
    {
      1 <= capacity && |keys| <= capacity && NoDuplicates(keys) && cache == Elements(keys)
    }

    constructor (size: nat)
      requires 1 <= size
      ensures Valid() && capacity == size && keys == []
    {
      capacity := size;
      cache, keys := {}, [];
    }

    /** A hit moves the key to the front. */
    method Contains(key: Key) returns (hit: bool)
      requires Valid()
      modifies this
      ensures Valid() && hit == (key in old(keys))
      ensures keys == if hit then [key] + Without(old(keys), key) else old(keys)
    {
      if key !in cache {
        return false;
      }
      Splice(key);
      return true;
    }

    /** _keys.splice(_keys.begin(), _keys, it) for a listed key. */
    method Splice(key: Key)
      requires Valid() && key in keys
      modifies this`keys
      ensures Valid() && keys == [key] + Without(old(keys), key)
    {
      ghost var was := keys;
      var i :| 0 <= i < |keys| && keys[i] == key;
      WithoutAt(keys, i);
      WithoutKeepsDistinct(keys, key);
      keys := [key] + keys[..i] + keys[i + 1..];
      assert keys == [key] + Without(was, key);
      assert Elements(keys) == Elements(was);
    }

    method Put(key: Key)
      requires Valid()
      modifies this
      ensures Valid()
      ensures keys == if key in old(keys) then [key] + Without(old(keys), key)
                      else [key] + if |old(keys)| == capacity then old(keys)[..capacity - 1] else old(keys)
    {
      if key in cache {
        Splice(key);
        return;
      }
      ghost var was := keys;
      if |keys| == capacity {
        var oldKey := keys[|keys| - 1];
        keys := keys[..|keys| - 1];
        cache := cache - {oldKey};
        assert was == keys + [oldKey];
        assert cache == Elements(keys);
      }
      keys := [key] + keys;
      cache := cache + {key};
      assert Elements(keys) == cache;
    }

    /** The filter: a text the cache knows is suppressed, any other is put in. */
    method Filter(text: Key, ghost history: seq<Key>) returns (passed: bool)
      requires Valid() && keys == Take(Recent(history), capacity)
      modifies this
      ensures Valid() && keys == Take(Recent(history + [text]), capacity)
      ensures passed <==> text !in Take(Recent(history), capacity)
    {
      RecentIsDistinct(history);
      assert (history + [text])[..|history|] == history;
      TakeAfterUse(Recent(history), text, capacity);
      var hit := Contains(text);
      if hit {
        return false;
      }
      Put(text);
      return true;
    }

    /** A whole stream: which texts pass depends on the history alone. */
    method FilterAll(texts: seq<Key>) returns (passed: seq<bool>)
      requires Valid() && keys == []
      modifies this
      ensures Valid() && keys == Take(Recent(texts), capacity)
      ensures |passed| == |texts|
      ensures forall i :: 0 <= i < |texts| ==> passed[i] == (texts[i] !in Take(Recent(texts[..i]), capacity))
    {
      hide Take, Recent, NoDuplicates, Elements;
      RecentOfNothing<Key>(capacity);
      assert texts[..0] == [];
      passed := [];
      for i := 0 to |texts|
        invariant Valid() && keys == Take(Recent(texts[..i]), capacity)
        invariant |passed| == i
        invariant forall j :: 0 <= j < i ==> passed[j] == (texts[j] !in Take(Recent(texts[..j]), capacity))
      {
        var p := Filter(texts[i], texts[..i]);
        passed := passed + [p];
        assert texts[..i + 1] == texts[..i] + [texts[i]];
      }
      assert texts[..|texts|] == texts;
    }
  }

  /** A new text passes; a known one is suppressed exactly when fewer than capacity distinct texts came since. */
  lemma SuppressedWhenRecent<Key(!new)>(history: seq<Key>, text: Key, capacity: nat)
    ensures text !in history ==> text !in Take(Recent(history), capacity)
    ensures forall last :: 0 <= last < |history| && history[last] == text && text !in history[last + 1..] ==>
              (text in Take(Recent(history), capacity) <==> |Elements(history[last + 1..])| < capacity)
  {
    forall last | 0 <= last < |history| && history[last] == text && text !in history[last + 1..]
      ensures text in Take(Recent(history), capacity) <==> |Elements(history[last + 1..])| < capacity
    {
      SuppressedAt(history, last, capacity);
    }
  }

  lemma SuppressedAt<Key(!new)>(history: seq<Key>, last: nat, capacity: nat)
    requires last < |history| && history[last] !in history[last + 1..]
    ensures history[last] in Take(Recent(history), capacity) <==> |Elements(history[last + 1..])| < capacity
  {
    var r, p := Recent(history), |Recent(history[last + 1..])|;
    RecentIsDistinct(history);
    RecentSplits(history, last);
    PositionIsDistinctSince(history, last, p);
    InTake(r, p, capacity);
  }

  lemma InTake<Key(!new)>(s: seq<Key>, p: nat, n: nat)
    requires NoDuplicates(s) && p < |s|
    ensures s[p] in Take(s, n) <==> p < n
  {
    if p < n {
      assert Take(s, n)[p] == s[p];
    }
  }

  lemma RecentOfNothing<Key(!new)>(n: nat)
    ensures Take(Recent<Key>([]), n) == []
  {
  }
}
