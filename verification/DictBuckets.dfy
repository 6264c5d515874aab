/**
 * The buckets of the chained hash table of dict.c as values, and when they
 * stand for a finite map.
 */
module DictBuckets {
  import opened Arithmetic
  import opened Bytes

  /** Keys are sds strings. */
  type Key = seq<byte>

  /** Hashes are 32-bit unsigned integers. */
  type Hash = h: nat | h < 0x1_0000_0000

  datatype Entry<V> = Entry(key: Key, val: V)

  /** A chain, first entry first. */
  type Chain<V> = seq<Entry<V>>
  type Buckets<V> = seq<seq<Entry<V>>>

  // ---- Sizes and masks ----

  const INITIAL_SIZE: nat := 4
  const LONG_MAX: nat := 0x7FFF_FFFF_FFFF_FFFF
  const SIZE_MAX: nat := 0xFFFF_FFFF_FFFF_FFFF
  const POINTER_SIZE: nat := 8

  function Pow2(k: nat): (p: nat)
    ensures p > 0
  {
    if k == 0 then 1 else 2 * Pow2(k - 1)
  }

  ghost predicate PowerOfTwo(n: nat) {
    exists k :: n == Pow2(k)
  }

  /** Bitwise and. */
  function BitAnd(a: nat, b: nat): (r: nat)
    ensures r <= a && r <= b
  {
    if a == 0 || b == 0 then 0 else 2 * BitAnd(a / 2, b / 2) + (a % 2) * (b % 2)
  }

  /** The low bit of a mask of ones, and the rest of it. */
  lemma MaskStep(h: nat, p: nat)
    requires p > 0
    ensures BitAnd(h, 2 * p - 1) == 2 * BitAnd(h / 2, p - 1) + h % 2
  {
    assert (2 * p - 1) / 2 == p - 1 && (2 * p - 1) % 2 == 1;
  }

  lemma MaskDoubled(h: nat, p: nat, r: nat, n: nat)
    requires p > 0 && r == h / 2 % p && BitAnd(h / 2, p - 1) == r && n == 2 * p
    ensures BitAnd(h, n - 1) == h % n
  {
    MaskStep(h, p);
    HalfRemainder(h, p, r);
  }

  /** Masking with a power of two less one is the remainder. */
  lemma {:induction false} MaskIsRemainder(h: nat, k: nat, n: nat)
    requires n == Pow2(k)
    ensures BitAnd(h, n - 1) == h % n
    decreases k
  {
    if k > 0 {
      var p := Pow2(k - 1);
      MaskIsRemainder(h / 2, k - 1, p);
      MaskDoubled(h, p, h / 2 % p, n);
    }
  }

  lemma HalfRemainder(h: nat, p: nat, r: nat)
    requires p > 0 && r == h / 2 % p
    ensures h % (2 * p) == 2 * r + h % 2
  {
    var q := h / 2 / p;
    assert h / 2 == q * p + r;
    assert h == q * (2 * p) + (2 * r + h % 2) by {
      assert 2 * (q * p) == q * (2 * p);
    }
    RemainderUnique(h, 2 * p, q, 2 * r + h % 2);
  }

  /** The bucket of a hash in a table of that size. */
  function Index(hash: nat, size: nat): (i: nat)
    requires size > 0
    ensures i < size
  {
    BitAnd(hash, size - 1)
  }

  /** A bucket as the 32-bit int in which dictAdd() keeps it. */
  function AsInt(i: nat): int {
    if i < 0x8000_0000 then i else i - 0x1_0000_0000
  }

  // ---- Chains ----

  /** The value of a key in a chain. */
  function Find<V>(c: Chain<V>, k: Key): Option<V> {
    if c == [] then None else if c[0].key == k then Some(c[0].val) else Find(c[1..], k)
  }

  predicate Distinct<V>(c: Chain<V>) {
    c == [] || (Find(c[1..], c[0].key).None? && Distinct(c[1..]))
  }

  /** The entry at j is the one that a search for its key finds. */
  lemma {:induction false} FindsEntry<V>(c: Chain<V>, j: nat)
    requires Distinct(c) && j < |c|
    ensures Find(c, c[j].key) == Some(c[j].val)
  {
    if j > 0 {
      FindsEntry(c[1..], j - 1);
    }
  }

  lemma {:induction false} FindAppend<V>(a: Chain<V>, b: Chain<V>, k: Key)
    ensures Find(a + b, k) == if Find(a, k).Some? then Find(a, k) else Find(b, k)
  {
    if a == [] {
      assert a + b == b;
    } else {
      assert (a + b)[1..] == a[1..] + b;
      FindAppend(a[1..], b, k);
    }
  }

  lemma {:induction false} DistinctAppend<V>(a: Chain<V>, b: Chain<V>)
    ensures Distinct(a + b) ==> Distinct(a) && Distinct(b)
    ensures Distinct(a + b) ==> forall k :: Find(a, k).Some? ==> Find(b, k).None?
  {
    if a == [] {
      assert a + b == b;
    } else {
      assert (a + b)[1..] == a[1..] + b;
      DistinctAppend(a[1..], b);
      FindAppend(a[1..], b, a[0].key);
    }
  }

  lemma {:induction false} DistinctJoin<V>(a: Chain<V>, b: Chain<V>)
    requires Distinct(a) && Distinct(b) && forall k :: Find(a, k).Some? ==> Find(b, k).None?
    ensures Distinct(a + b)
  {
    if a == [] {
      assert a + b == b;
    } else {
      assert (a + b)[1..] == a[1..] + b;
      forall k | Find(a[1..], k).Some? ensures Find(b, k).None? {
        assert Find(a, k).Some?;
      }
      DistinctJoin(a[1..], b);
      FindAppend(a[1..], b, a[0].key);
      assert Find(a, a[0].key).Some?;
    }
  }

  // ---- Counting ----

  function Total<V>(b: Buckets<V>): nat {
    if b == [] then 0 else Total(b[..|b| - 1]) + |b[|b| - 1]|
  }

  lemma {:induction false} TotalUpdate<V>(b: Buckets<V>, i: nat, c: Chain<V>)
    requires i < |b|
    ensures Total(b[i := c]) == Total(b) - |b[i]| + |c|
    decreases |b|
  {
    var n := |b| - 1;
    if i < n {
      assert b[i := c][..n] == b[..n][i := c];
      TotalUpdate(b[..n], i, c);
    } else {
      assert b[i := c][..n] == b[..n];
    }
  }

  /** Once all entries are counted, the remaining chains are empty. */
  lemma {:induction false} TotalReached<V>(b: Buckets<V>, i: nat, j: nat)
    requires i <= |b| && Total(b[..i]) == Total(b) && i <= j < |b|
    ensures b[j] == []
    decreases |b|
  {
    TotalGrows(b[..|b| - 1], i);
    assert b[..|b| - 1][..i] == b[..i];
    if j < |b| - 1 {
      TotalReached(b[..|b| - 1], i, j);
    }
  }

  lemma {:induction false} TotalGrows<V>(b: Buckets<V>, i: nat)
    requires i <= |b|
    ensures Total(b[..i]) <= Total(b)
    decreases |b|
  {
    if i < |b| {
      assert b[..|b| - 1][..i] == b[..i];
      TotalGrows(b[..|b| - 1], i);
    } else {
      assert b[..i] == b;
    }
  }

  // ---- Tables that stand for a map ----

  /** The value of a key in the table. */
  function Lookup<V>(hash: Key -> Hash, b: Buckets<V>, k: Key): Option<V> {
    if |b| == 0 then None else Find(b[Index(hash(k), |b|)], k)
  }

  function MapGet<V>(m: map<Key, V>, k: Key): Option<V> {
    if k in m then Some(m[k]) else None
  }

  /** Every entry is in the bucket of its key. */
  ghost predicate InPlace<V>(hash: Key -> Hash, b: Buckets<V>) {
    forall i, j :: 0 <= i < |b| && 0 <= j < |b[i]| ==> Index(hash(b[i][j].key), |b|) == i
  }

  ghost predicate AllDistinct<V>(b: Buckets<V>) {
    forall i :: 0 <= i < |b| ==> Distinct(b[i])
  }

  ghost predicate Agrees<V>(hash: Key -> Hash, b: Buckets<V>, m: map<Key, V>) {
    forall k :: Lookup(hash, b, k) == MapGet(m, k)
  }

  /** The table holds exactly the map: in place, no key twice, every key found. */
  ghost predicate Represents<V>(hash: Key -> Hash, b: Buckets<V>, m: map<Key, V>) {
    InPlace(hash, b) && AllDistinct(b) && Agrees(hash, b, m) && Total(b) == |m|
  }

  lemma LookupOther<V>(hash: Key -> Hash, b: Buckets<V>, i: nat, c: Chain<V>, k: Key)
    requires i < |b|
    ensures Lookup(hash, b[i := c], k) == if Index(hash(k), |b|) == i then Find(c, k) else Lookup(hash, b, k)
  {
  }

  /** What a map says of the keys of one bucket after that bucket became c. */
  ghost predicate Changed<V>(hash: Key -> Hash, size: nat, i: nat, c: Chain<V>, m: map<Key, V>, m': map<Key, V>)
    requires size > 0
  {
    forall k :: MapGet(m', k) == if Index(hash(k), size) == i then Find(c, k) else MapGet(m, k)
  }

  lemma AgreesAfter<V>(hash: Key -> Hash, b: Buckets<V>, m: map<Key, V>, i: nat, c: Chain<V>, m': map<Key, V>)
    requires Agrees(hash, b, m) && i < |b| && Changed(hash, |b|, i, c, m, m')
    ensures Agrees(hash, b[i := c], m')
  {
    forall k ensures Lookup(hash, b[i := c], k) == MapGet(m', k) {
      LookupOther(hash, b, i, c, k);
      assert Lookup(hash, b, k) == MapGet(m, k);
    }
  }

  lemma InPlaceAfter<V>(hash: Key -> Hash, b: Buckets<V>, i: nat, c: Chain<V>)
    requires InPlace(hash, b) && i < |b|
    requires forall j :: 0 <= j < |c| ==> Index(hash(c[j].key), |b|) == i
    ensures InPlace(hash, b[i := c])
  {
  }

  /** A chain may be changed as long as its keys stay in place, distinct, and as the new map says. */
  lemma ChainChange<V>(hash: Key -> Hash, b: Buckets<V>, m: map<Key, V>, i: nat, c: Chain<V>, m': map<Key, V>)
    requires Represents(hash, b, m) && i < |b| && Distinct(c)
    requires forall j :: 0 <= j < |c| ==> Index(hash(c[j].key), |b|) == i
    requires Changed(hash, |b|, i, c, m, m') && |m'| == |m| - |b[i]| + |c|
    ensures Represents(hash, b[i := c], m')
  {
    TotalUpdate(b, i, c);
    AgreesAfter(hash, b, m, i, c, m');
    InPlaceAfter(hash, b, i, c);
  }

  /** A new entry at the head of its chain. */
  lemma InsertKeeps<V>(hash: Key -> Hash, b: Buckets<V>, m: map<Key, V>, e: Entry<V>)
    requires Represents(hash, b, m) && |b| > 0 && e.key !in m
    ensures var i := Index(hash(e.key), |b|);
      && Represents(hash, b[i := [e] + b[i]], m[e.key := e.val])
  {
    var i := Index(hash(e.key), |b|);
    var c := [e] + b[i];
    assert Lookup(hash, b, e.key) == MapGet(m, e.key);
    assert c[1..] == b[i];
    forall k ensures MapGet(m[e.key := e.val], k) == if Index(hash(k), |b|) == i then Find(c, k) else MapGet(m, k) {
      assert Lookup(hash, b, k) == MapGet(m, k);
    }
    ChainChange(hash, b, m, i, c, m[e.key := e.val]);
  }

  lemma DistinctMiddle<V>(a: Chain<V>, e: Entry<V>, d: Chain<V>)
    requires Distinct(a + ([e] + d))
    ensures Distinct(a) && Distinct(d) && Find(a, e.key).None? && Find(d, e.key).None?
    ensures forall k :: Find(a, k).Some? ==> Find(d, k).None?
  {
    var r := [e] + d;
    assert r[1..] == d;
    DistinctAppend(a, r);
    assert Find(r, e.key).Some?;
    forall k | Find(a, k).Some? ensures Find(d, k).None? {
      assert Find(r, k).None?;
    }
  }

  lemma FindMiddle<V>(a: Chain<V>, e: Entry<V>, d: Chain<V>, k: Key)
    ensures Find(a + ([e] + d), k) ==
            if Find(a, k).Some? then Find(a, k) else if e.key == k then Some(e.val) else Find(d, k)
  {
    FindAppend(a, [e] + d, k);
    assert ([e] + d)[1..] == d;
  }

  /** A chain without one of its entries. */
  lemma RemoveFromChain<V>(a: Chain<V>, e: Entry<V>, d: Chain<V>)
    requires Distinct(a + ([e] + d))
    ensures Distinct(a + d)
  {
    DistinctMiddle(a, e, d);
    DistinctJoin(a, d);
  }

  lemma FindWithout<V>(a: Chain<V>, e: Entry<V>, d: Chain<V>, k: Key)
    requires Distinct(a + ([e] + d))
    ensures Find(a + d, k) == if k == e.key then None else Find(a + ([e] + d), k)
  {
    DistinctMiddle(a, e, d);
    FindAppend(a, d, k);
    FindMiddle(a, e, d, k);
  }

  /** A chain with another value for one of its keys. */
  lemma UpdateChain<V>(a: Chain<V>, e: Entry<V>, e': Entry<V>, d: Chain<V>)
    requires Distinct(a + ([e] + d)) && e'.key == e.key
    ensures Distinct(a + ([e'] + d))
  {
    DistinctMiddle(a, e, d);
    var r := [e'] + d;
    assert r[1..] == d;
    forall k | Find(a, k).Some? ensures Find(r, k).None? {
    }
    DistinctJoin(a, r);
  }

  lemma FindUpdated<V>(a: Chain<V>, e: Entry<V>, e': Entry<V>, d: Chain<V>, k: Key)
    requires Distinct(a + ([e] + d)) && e'.key == e.key
    ensures Find(a + ([e'] + d), k) == if k == e.key then Some(e'.val) else Find(a + ([e] + d), k)
  {
    DistinctMiddle(a, e, d);
    FindMiddle(a, e', d, k);
    FindMiddle(a, e, d, k);
  }

  lemma EntryOfMap<V>(hash: Key -> Hash, b: Buckets<V>, m: map<Key, V>, i: nat, j: nat)
    requires Represents(hash, b, m) && i < |b| && j < |b[i]|
    ensures Index(hash(b[i][j].key), |b|) == i && b[i][j].key in m && m[b[i][j].key] == b[i][j].val
  {
    FindsEntry(b[i], j);
    assert Lookup(hash, b, b[i][j].key) == MapGet(m, b[i][j].key);
  }

  /** The chain around its j-th entry. */
  lemma Around<V>(c: Chain<V>, j: nat, e: Entry<V>)
    requires j < |c|
    ensures c == c[..j] + ([c[j]] + c[j + 1..]) && c[j := e] == c[..j] + ([e] + c[j + 1..])
  {
  }

  lemma DeleteKeeps<V>(hash: Key -> Hash, b: Buckets<V>, m: map<Key, V>, i: nat, j: nat)
    requires Represents(hash, b, m) && i < |b| && j < |b[i]|
    ensures Represents(hash, b[i := b[i][..j] + b[i][j + 1..]], m - {b[i][j].key})
  {
    var a, e, d := b[i][..j], b[i][j], b[i][j + 1..];
    Around(b[i], j, e);
    EntryOfMap(hash, b, m, i, j);
    RemoveFromChain(a, e, d);
    forall k ensures MapGet(m - {e.key}, k) == if Index(hash(k), |b|) == i then Find(a + d, k) else MapGet(m, k) {
      FindWithout(a, e, d, k);
      assert Lookup(hash, b, k) == MapGet(m, k);
    }
    assert |m - {e.key}| == |m| - 1 by {
      assert m == (m - {e.key})[e.key := m[e.key]];
    }
    ChainChange(hash, b, m, i, a + d, m - {e.key});
  }

  lemma ReplaceKeeps<V>(hash: Key -> Hash, b: Buckets<V>, m: map<Key, V>, i: nat, j: nat, v: V)
    requires Represents(hash, b, m) && i < |b| && j < |b[i]|
    ensures Represents(hash, b[i := b[i][j := Entry(b[i][j].key, v)]], m[b[i][j].key := v])
  {
    var a, e, d := b[i][..j], b[i][j], b[i][j + 1..];
    var e' := Entry(e.key, v);
    var c := a + ([e'] + d);
    Around(b[i], j, e');
    EntryOfMap(hash, b, m, i, j);
    UpdateChain(a, e, e', d);
    forall k ensures MapGet(m[e.key := v], k) == if Index(hash(k), |b|) == i then Find(c, k) else MapGet(m, k) {
      FindUpdated(a, e, e', d, k);
      assert Lookup(hash, b, k) == MapGet(m, k);
    }
    assert m[e.key := v].Keys == m.Keys;
    ChainChange(hash, b, m, i, c, m[e.key := v]);
  }
}
