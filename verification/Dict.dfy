/**
 * The chained hash table of dict.c: an array of chains that grows by doubling.
 * Every operation does to `contents` what it would do to a finite map.
 */
module Dict {
  import opened Arithmetic
  import opened Bytes
  import opened DictBuckets

  /** The most slots that hi_calloc() does not refuse. */
  const MAX_SLOTS: nat := SIZE_MAX / POINTER_SIZE

  // ---- Sizes ----

  /** Doubles i until it reaches size. */
  function Grow(i: nat, size: nat): (r: nat)
    requires i > 0
    ensures r >= size && (r == i || r < 2 * size)
    decreases size - i, i
  {
    if i >= size then i else Grow(2 * i, size)
  }

  lemma {:induction false} PowerDoubles(j: nat, k: nat)
    requires Pow2(j) < Pow2(k)
    ensures j < k && 2 * Pow2(j) <= Pow2(k)
    decreases k
  {
    if j >= k {
      PowMonotone(k, j);
    } else if j < k - 1 {
      PowMonotone(j + 1, k);
    }
  }

  lemma {:induction false} PowMonotone(j: nat, k: nat)
    requires j <= k
    ensures Pow2(j) <= Pow2(k)
    decreases k
  {
    if j < k {
      PowMonotone(j, k - 1);
    }
  }

  /** From a power of two, doubling lands on a power of two, and on size if that is one. */
  lemma {:induction false} GrowPower(j: nat, size: nat)
    ensures PowerOfTwo(Grow(Pow2(j), size))
    ensures forall k :: size == Pow2(k) && Pow2(j) <= size ==> Grow(Pow2(j), size) == size
    decreases size - Pow2(j)
  {
    if Pow2(j) < size {
      GrowPower(j + 1, size);
      forall k | size == Pow2(k) ensures 2 * Pow2(j) <= size {
        PowerDoubles(j, k);
      }
    }
  }

  /** _dictNextPower() */
  method NextPower(size: nat) returns (r: nat)
    ensures r == if size >= LONG_MAX then LONG_MAX else Grow(INITIAL_SIZE, size)
  {
    if size >= LONG_MAX { return LONG_MAX; }
    r := INITIAL_SIZE;
    ghost var all := Grow(INITIAL_SIZE, size);
    while r < size
      invariant r > 0 && all == Grow(r, size)
      decreases size - r
    {
      r := 2 * r;
    }
  }

  // ---- Moving entries to a larger table ----

  /** The key's entry comes before entry j of bucket i. */
  predicate Passed<V>(hash: Key -> Hash, b: Buckets<V>, i: nat, j: nat, k: Key)
    requires |b| > 0
  {
    var at := Index(hash(k), |b|);
    at < i || (at == i && j <= |b[i]| && Find(b[i][..j], k).Some?)
  }

  /** mm holds the entries of m that have been passed. */
  ghost predicate Moved<V>(hash: Key -> Hash, b: Buckets<V>, m: map<Key, V>, mm: map<Key, V>, i: nat, j: nat)
    requires |b| > 0
  {
    forall k :: MapGet(mm, k) == if Passed(hash, b, i, j, k) then MapGet(m, k) else None
  }

  lemma PassedNext<V>(hash: Key -> Hash, b: Buckets<V>, i: nat, j: nat, k: Key)
    requires i < |b| && j < |b[i]| && Distinct(b[i]) && Index(hash(b[i][j].key), |b|) == i
    ensures Passed(hash, b, i, j + 1, k) <==> Passed(hash, b, i, j, k) || k == b[i][j].key
    ensures !Passed(hash, b, i, j, b[i][j].key)
  {
    Around(b[i], j, b[i][j]);
    DistinctMiddle(b[i][..j], b[i][j], b[i][j + 1..]);
    assert b[i][..j + 1] == b[i][..j] + [b[i][j]];
    FindAppend(b[i][..j], [b[i][j]], k);
    assert [b[i][j]][1..] == [];
  }

  lemma MoveEntry<V>(hash: Key -> Hash, b: Buckets<V>, m: map<Key, V>, mm: map<Key, V>, i: nat, j: nat)
    requires Represents(hash, b, m) && i < |b| && j < |b[i]| && Moved(hash, b, m, mm, i, j)
    ensures var e := b[i][j];
      && e.key !in mm && Moved(hash, b, m, mm[e.key := e.val], i, j + 1)
  {
    var e := b[i][j];
    EntryOfMap(hash, b, m, i, j);
    PassedNext(hash, b, i, j, e.key);
    assert MapGet(mm, e.key) == None;
    var mm', j' := mm[e.key := e.val], j + 1;
    forall k ensures MapGet(mm', k) == if Passed(hash, b, i, j', k) then MapGet(m, k) else None {
      PassedNext(hash, b, i, j, k);
      assert MapGet(mm, k) == if Passed(hash, b, i, j, k) then MapGet(m, k) else None;
    }
  }

  lemma MoveRow<V>(hash: Key -> Hash, b: Buckets<V>, m: map<Key, V>, mm: map<Key, V>, i: nat)
    requires Represents(hash, b, m) && i < |b| && Moved(hash, b, m, mm, i, |b[i]|)
    ensures Moved(hash, b, m, mm, i + 1, 0)
  {
    assert b[i][..|b[i]|] == b[i];
    var i' := i + 1;
    forall k ensures MapGet(mm, k) == if Passed(hash, b, i', 0, k) then MapGet(m, k) else None {
      assert Lookup(hash, b, k) == MapGet(m, k);
      assert MapGet(mm, k) == if Passed(hash, b, i, |b[i]|, k) then MapGet(m, k) else None;
    }
  }

  lemma MoveDone<V>(hash: Key -> Hash, b: Buckets<V>, m: map<Key, V>, mm: map<Key, V>, i: nat)
    requires Represents(hash, b, m) && 0 < |b| && i <= |b| && Moved(hash, b, m, mm, i, 0) && Total(b[..i]) == Total(b)
    ensures mm == m
  {
    forall k ensures MapGet(mm, k) == MapGet(m, k) {
      var at := Index(hash(k), |b|);
      assert Lookup(hash, b, k) == MapGet(m, k);
      assert MapGet(mm, k) == if Passed(hash, b, i, 0, k) then MapGet(m, k) else None;
      if at >= i {
        TotalReached(b, i, at);
      }
    }
    SameGets(mm, m);
  }

  lemma SameGets<V>(a: map<Key, V>, b: map<Key, V>)
    requires forall k :: MapGet(a, k) == MapGet(b, k)
    ensures a == b
  {
    forall k ensures k in a <==> k in b {
      assert MapGet(a, k) == MapGet(b, k);
    }
    forall k | k in a ensures a[k] == b[k] {
      assert MapGet(a, k) == MapGet(b, k);
    }
  }

  lemma MoveStart<V>(hash: Key -> Hash, b: Buckets<V>, m: map<Key, V>)
    requires |b| > 0
    ensures Moved(hash, b, m, map[], 0, 0)
  {
    forall k ensures !Passed(hash, b, 0, 0, k) {
      assert b[0][..0] == [];
    }
  }

  lemma {:induction false} EmptyTotal<V>(b: Buckets<V>)
    requires forall i :: 0 <= i < |b| ==> b[i] == []
    ensures Total(b) == 0
    decreases |b|
  {
    if b != [] {
      EmptyTotal(b[..|b| - 1]);
    }
  }

  lemma EmptyRepresents<V>(hash: Key -> Hash, b: Buckets<V>)
    requires forall i :: 0 <= i < |b| ==> b[i] == []
    ensures Represents(hash, b, map[])
  {
    EmptyTotal(b);
  }

  /** A search that starts at entry j. */
  method SearchChain<V>(c: Chain<V>, k: Key) returns (j: nat)
    ensures j <= |c|
    ensures Find(c, k) == if j < |c| then Some(c[j].val) else None
    ensures j < |c| ==> c[j].key == k
  {
    j := 0;
    ghost var all := Find(c, k);
    assert c[0..] == c;
    while j < |c|
      invariant j <= |c| && all == Find(c[j..], k)
    {
      if c[j].key == k { return; }
      assert c[j..][1..] == c[j + 1..];
      j := j + 1;
    }
  }

  class Dict<V> {
    const hash: Key -> Hash
    var table: array<Chain<V>>
    var size: nat
    var sizemask: nat
    var used: nat
    /** The map that the table stands for. */
    ghost var contents: map<Key, V>

    ghost predicate Valid()
      reads this, table
    {
      && table.Length == size <= MAX_SLOTS
      && (size == 0 || (PowerOfTwo(size) && size >= INITIAL_SIZE)) && sizemask == (if size == 0 then 0 else size - 1)
      && used == |contents| && Represents(hash, table[..], contents)
    }

    /** Another entry fits, possibly after doubling. */
    predicate Room()
      reads this
    {
      used != size || size == 0 || 2 * size <= MAX_SLOTS
    }

    constructor (hash: Key -> Hash)
      ensures Valid() && fresh(table) && contents == map[] && size == 0 && this.hash == hash
    {
      this.hash := hash;
      table := new Chain<V>[0];
      size, sizemask, used, contents := 0, 0, 0, map[];
      new;
      EmptyRepresents(hash, table[..]);
    }

    /** Puts an entry at the head of its chain in another table. */
    method Relink(n: array<Chain<V>>, e: Entry<V>, ghost mm: map<Key, V>)
      requires n.Length > 0 && Represents(hash, n[..], mm) && e.key !in mm
      modifies n
      ensures Represents(hash, n[..], mm[e.key := e.val])
    {
      ghost var b := n[..];
      InsertKeeps(hash, b, mm, e);
      var h := BitAnd(hash(e.key), n.Length - 1);
      n[h] := [e] + n[h];
      assert n[..] == b[h := [e] + b[h]];
    }

    /** Moves a chain, counting down the entries left. */
    method MoveChain(n: array<Chain<V>>, i: nat, ghost b: Buckets<V>, ghost m: map<Key, V>, ghost mm: map<Key, V>)
      returns (ghost mm': map<Key, V>)
      requires table != n && n.Length > 0 && b == table[..] && Represents(hash, b, m) && i < |b|
      requires Represents(hash, n[..], mm) && Moved(hash, b, m, mm, i, 0) && used >= |b[i]|
      modifies n, this`used
      ensures Represents(hash, n[..], mm') && Moved(hash, b, m, mm', i + 1, 0)
      ensures |mm'| == |mm| + |b[i]| && used == old(used) - |b[i]|
    {
      var chain := table[i];
      var j := 0;
      mm' := mm;
      while j < |chain|
        invariant j <= |chain| && used == old(used) - j && |mm'| == |mm| + j
        invariant Represents(hash, n[..], mm') && Moved(hash, b, m, mm', i, j)
      {
        MoveEntry(hash, b, m, mm', i, j);
        Relink(n, chain[j], mm');
        mm' := mm'[chain[j].key := chain[j].val];
        used := used - 1;
        j := j + 1;
      }
      MoveRow(hash, b, m, mm', i);
    }

    /** The loop of dictExpand(): all chains, or until no entry is left. */
    method MoveAll(n: array<Chain<V>>)
      requires Valid() && table != n && n.Length > 0 && (forall i :: 0 <= i < n.Length ==> n[i] == [])
      modifies n, this`used
      ensures Represents(hash, n[..], contents) && used == 0
    {
      ghost var b, m, mm: map<Key, V> := table[..], contents, map[];
      EmptyRepresents(hash, n[..]);
      if size > 0 {
        MoveStart(hash, b, m);
      }
      var i := 0;
      while i < size && used > 0
        invariant i <= size && b == table[..] && used == |m| - |mm| && |mm| == Total(b[..i])
        invariant Represents(hash, n[..], mm) && (size > 0 ==> Moved(hash, b, m, mm, i, 0))
      {
        assert b[..i + 1][..i] == b[..i];
        TotalGrows(b, i + 1);
        mm := MoveChain(n, i, b, m, mm);
        i := i + 1;
      }
      assert b[..size] == b;
      if size > 0 {
        MoveDone(hash, b, m, mm, i);
      } else {
        assert m == map[];
      }
    }

    /** dictExpand(): its assertion that every entry was moved holds. */
    method Expand(wanted: nat) returns (ok: bool)
      requires Valid()
      modifies this, table
      ensures Valid() && contents == old(contents)
      ensures ok ==> fresh(table) && size >= wanted && size >= INITIAL_SIZE
      ensures ok == (used <= wanted < LONG_MAX && Grow(INITIAL_SIZE, wanted) <= MAX_SLOTS)
      ensures !ok ==> table == old(table) && size == old(size) && table[..] == old(table[..])
      ensures ok && PowerOfTwo(wanted) && wanted >= INITIAL_SIZE ==> size == wanted
    {
      var realsize := NextPower(wanted);
      if used > wanted { return false; }
      if MAX_SLOTS < realsize { return false; }
      var n := new Chain<V>[realsize](i => []);
      var count := used;
      MoveAll(n);
      assert used == 0;
      table, size, sizemask, used := n, realsize, realsize - 1, count;
      GrowPower(2, wanted);
      return true;
    }

    /** _dictExpandIfNeeded() */
    method ExpandIfNeeded() returns (ok: bool)
      requires Valid()
      modifies this, table
      ensures Valid() && contents == old(contents) && ok == old(Room())
      ensures table == old(table) || fresh(table)
      ensures if ok then size == old(SizeForOneMore()) > 0 else size == old(size)
    {
      if size == 0 {
        assert INITIAL_SIZE == Pow2(2);
        ok := Expand(INITIAL_SIZE);
      } else if used == size {
        DoublePower(size);
        DoublingIsExact(2 * size);
        ok := Expand(2 * size);
      } else {
        ok := true;
      }
    }

    /** The size after dictExpandIfNeeded(), if it succeeds. */
    function SizeForOneMore(): nat
      reads this
    {
      if size == 0 then INITIAL_SIZE else if used == size then 2 * size else size
    }

    /** The index for a new key, as an int: -1 also says that there is no place for the key. */
    ghost function IndexFor(k: Key): int
      requires Valid()
      reads this, table
    {
      if k !in contents && Room() then AsInt(Index(hash(k), SizeForOneMore())) else -1
    }

    /** The search of _dictKeyIndex(), and its result as an int. */
    method Probe(k: Key) returns (index: int)
      requires Valid() && size > 0
      ensures index == if k in contents then -1 else AsInt(Index(hash(k), size))
    {
      var h := BitAnd(hash(k), sizemask);
      var j := SearchChain(table[h], k);
      assert Lookup(hash, table[..], k) == MapGet(contents, k);
      return if j < |table[h]| then -1 else AsInt(h);
    }

    /** _dictKeyIndex() */
    method KeyIndex(k: Key) returns (index: int)
      requires Valid()
      modifies this, table
      ensures Valid() && contents == old(contents) && (table == old(table) || fresh(table))
      ensures index == old(IndexFor(k)) && (size == old(size) || size == old(SizeForOneMore()))
      ensures index >= 0 ==> k !in contents && size > 0 && index == Index(hash(k), size)
    {
      var ok := ExpandIfNeeded();
      if !ok { return -1; }
      index := Probe(k);
    }

    /** dictAdd(): None is a write outside the table. */
    method Add(k: Key, v: V) returns (r: Option<bool>)
      requires Valid()
      modifies this, table
      ensures Valid() && (table == old(table) || fresh(table))
      ensures r == var i := old(IndexFor(k)); if i == -1 then Some(false) else if i < 0 then None else Some(true)
      ensures contents == if r == Some(true) then old(contents)[k := v] else old(contents)
      ensures size == old(size) || size == old(SizeForOneMore())
    {
      var index := KeyIndex(k);
      if index == -1 { return Some(false); }
      if index < 0 { return None; }
      Link(index, Entry(k, v));
      return Some(true);
    }

    /** The new entry goes to the head of its chain. */
    method Link(h: nat, e: Entry<V>)
      requires Valid() && size > 0 && h == Index(hash(e.key), size) && e.key !in contents
      modifies this`used, this`contents, table
      ensures Valid() && contents == old(contents)[e.key := e.val]
    {
      ghost var b := table[..];
      InsertKeeps(hash, b, contents, e);
      table[h] := [e] + table[h];
      assert table[..] == b[h := [e] + b[h]];
      used, contents := used + 1, contents[e.key := e.val];
    }

    /** dictFind() */
    method FindKey(k: Key) returns (r: Option<V>)
      requires Valid()
      ensures r == MapGet(contents, k)
    {
      assert Lookup(hash, table[..], k) == MapGet(contents, k);
      if size == 0 { return None; }
      var h := BitAnd(hash(k), sizemask);
      var j := SearchChain(table[h], k);
      return if j < |table[h]| then Some(table[h][j].val) else None;
    }

    /** dictReplace(): sets the value unless a new key is refused. */
    method Replace(k: Key, v: V) returns (r: Option<bool>)
      requires Valid()
      modifies this, table
      ensures Valid() && (table == old(table) || fresh(table))
      ensures r == var i := old(IndexFor(k)); if i == -1 then Some(false) else if i < 0 then None else Some(true)
      ensures contents == if k in old(contents) || r == Some(true) then old(contents)[k := v] else old(contents)
      ensures size == old(size) || size == old(SizeForOneMore())
    {
      r := Add(k, v);
      if r == Some(false) {
        Update(k, v);
      }
    }

    /** Sets the value of a key that is there. */
    method Update(k: Key, v: V)
      requires Valid()
      modifies this`contents, table
      ensures Valid() && contents == if k in old(contents) then old(contents)[k := v] else old(contents)
    {
      assert Lookup(hash, table[..], k) == MapGet(contents, k);
      if size == 0 { return; }
      var h := BitAnd(hash(k), sizemask);
      var j := SearchChain(table[h], k);
      if j < |table[h]| {
        SetValue(h, j, v);
      }
    }

    method SetValue(h: nat, j: nat, v: V)
      requires Valid() && h < size && j < |table[h]|
      modifies this`contents, table
      ensures Valid() && contents == old(contents)[old(table[h][j].key) := v]
    {
      ghost var b := table[..];
      EntryOfMap(hash, b, contents, h, j);
      ReplaceKeeps(hash, b, contents, h, j, v);
      ghost var key := table[h][j].key;
      table[h] := table[h][j := Entry(table[h][j].key, v)];
      assert table[..] == b[h := b[h][j := Entry(key, v)]];
      assert contents[key := v].Keys == contents.Keys;
      contents := contents[key := v];
    }

    /** dictDelete() */
    method Delete(k: Key) returns (ok: bool)
      requires Valid()
      modifies this`used, this`contents, table
      ensures Valid() && ok == (k in old(contents)) && contents == old(contents) - {k}
    {
      assert Lookup(hash, table[..], k) == MapGet(contents, k);
      if size == 0 { return false; }
      var h := BitAnd(hash(k), sizemask);
      var j := SearchChain(table[h], k);
      if j == |table[h]| { return false; }
      Unlink(h, j);
      return true;
    }

    method Unlink(h: nat, j: nat)
      requires Valid() && h < size && j < |table[h]|
      modifies this`used, this`contents, table
      ensures Valid() && contents == old(contents) - {old(table[h][j].key)}
    {
      ghost var b, key := table[..], table[h][j].key;
      EntryOfMap(hash, b, contents, h, j);
      DeleteKeeps(hash, b, contents, h, j);
      table[h] := table[h][..j] + table[h][j + 1..];
      assert table[..] == b[h := b[h][..j] + b[h][j + 1..]];
      TotalUpdate(b, h, b[h][..j] + b[h][j + 1..]);
      used, contents := used - 1, contents - {key};
    }
  }

  // ---- Any sequence of operations ----

  datatype Op<V> = AddOp(k: Key, v: V) | ReplaceOp(k: Key, v: V) | DeleteOp(k: Key) | FindOp(k: Key)

  datatype Out<V> = Status(ok: bool) | Found(val: Option<V>)

  /** The operation on a finite map. */
  function After<V>(m: map<Key, V>, op: Op<V>): (m': map<Key, V>)
    ensures |m'| <= |m| + 1
  {
    match op
    case AddOp(k, v) => if k in m then m else m[k := v]
    case ReplaceOp(k, v) => assert k in m ==> m[k := v].Keys == m.Keys; m[k := v]
    case DeleteOp(k) => assert k in m ==> m == (m - {k})[k := m[k]]; assert k !in m ==> m - {k} == m; m - {k}
    case FindOp(_) => m
  }

  function Answer<V>(m: map<Key, V>, op: Op<V>): Out<V> {
    match op
    case AddOp(k, _) => Status(k !in m)
    case ReplaceOp(k, _) => Status(k !in m)
    case DeleteOp(k) => Status(k in m)
    case FindOp(k) => Found(MapGet(m, k))
  }

  function Contents<V>(ops: seq<Op<V>>): (m: map<Key, V>)
    ensures |m| <= |ops|
  {
    if ops == [] then map[] else After(Contents(ops[..|ops| - 1]), ops[|ops| - 1])
  }

  function Answers<V>(ops: seq<Op<V>>): (out: seq<Out<V>>)
    ensures |out| == |ops|
  {
    if ops == [] then []
    else Answers(ops[..|ops| - 1]) + [Answer(Contents(ops[..|ops| - 1]), ops[|ops| - 1])]
  }

  // ---- Up to which size an int holds every index ----

  const INT_SLOTS: nat := 0x8000_0000

  lemma PowInt()
    ensures Pow2(31) == INT_SLOTS
  {
    assert Pow2(8) == 0x100;
    assert Pow2(16) == 0x1_0000;
    assert Pow2(24) == 0x100_0000;
  }

  /**
   * In a larger table a hash from 0x80000000 up has a negative index, and the
   * last one is taken for that of a key already there.
   */
  lemma IndexBeyondInt(size: nat, h: Hash)
    requires PowerOfTwo(size) && size > INT_SLOTS && h >= INT_SLOTS
    ensures AsInt(Index(h, size)) == h - 0x1_0000_0000 < 0
    ensures AsInt(Index(h, size)) == -1 <==> h == 0xFFFF_FFFF
  {
    var k: nat :| size == Pow2(k);
    PowInt();
    PowerDoubles(31, k);
    MaskIsRemainder(h, k, size);
    RemainderUnique(h, size, 0, h);
  }

  /** An int holds the index of every hash up to that size, and no further. */
  lemma IndexFitsInt(size: nat)
    requires PowerOfTwo(size)
    ensures (forall h: Hash :: AsInt(Index(h, size)) >= 0) <==> size <= INT_SLOTS
  {
    if size > INT_SLOTS {
      IndexBeyondInt(size, INT_SLOTS);
    }
  }

  /** One operation answers as the map does. */
  method Perform<V>(d: Dict<V>, op: Op<V>) returns (out: Out<V>)
    requires d.Valid() && d.size <= INT_SLOTS && |d.contents| < INT_SLOTS
    modifies d, d.table
    ensures d.Valid() && d.size <= INT_SLOTS && (d.table == old(d.table) || fresh(d.table))
    ensures d.contents == After(old(d.contents), op) && out == Answer(old(d.contents), op)
  {
    SmallFits(d, op.k);
    if op.AddOp? {
      var ok := d.Add(op.k, op.v);
      out := Status(ok == Some(true));
    } else if op.ReplaceOp? {
      var added := d.Replace(op.k, op.v);
      out := Status(added == Some(true));
    } else if op.DeleteOp? {
      var ok := d.Delete(op.k);
      out := Status(ok);
    } else {
      var val := d.FindKey(op.k);
      out := Found(val);
    }
  }

  /** With fewer entries than that, doubling does not make the table larger. */
  lemma SmallFits<V>(d: Dict<V>, k: Key)
    requires d.Valid() && d.size <= INT_SLOTS && |d.contents| < INT_SLOTS
    ensures d.Room() && d.SizeForOneMore() <= INT_SLOTS
    ensures if k in d.contents then d.IndexFor(k) == -1 else d.IndexFor(k) >= 0
  {
    PowInt();
    if d.used == d.size != 0 {
      var j: nat :| d.size == Pow2(j);
      PowerDoubles(j, 31);
    }
  }

  /** One entry more, and a new key may be refused like one already there, or be written outside the table. */
  lemma FullFails<V>(d: Dict<V>, k: Key)
    requires d.Valid() && d.used == d.size == INT_SLOTS && k !in d.contents && d.hash(k) >= INT_SLOTS
    ensures if d.hash(k) == 0xFFFF_FFFF then d.IndexFor(k) == -1 else d.IndexFor(k) < -1
  {
    DoublePower(d.size);
    IndexBeyondInt(2 * d.size, d.hash(k));
  }

  /**
   * A table that starts empty answers every sequence of operations as a finite
   * map does, up to as many operations as there are ints to index with.
   */
  method RunOps<V>(hash: Key -> Hash, ops: seq<Op<V>>) returns (out: seq<Out<V>>)
    requires |ops| <= INT_SLOTS
    ensures out == Answers(ops)
  {
    var d := new Dict<V>(hash);
    out := [];
    for i := 0 to |ops|
      invariant fresh(d) && fresh(d.table) && d.Valid() && d.size <= INT_SLOTS
      invariant d.contents == Contents(ops[..i]) && out == Answers(ops[..i])
    {
      assert ops[..i + 1][..i] == ops[..i];
      var answer := Perform(d, ops[i]);
      out := out + [answer];
    }
    assert ops[..|ops|] == ops;
  }

  /** The next power of two of a power of two is itself. */
  lemma DoublingIsExact(size: nat)
    requires PowerOfTwo(size) && size >= INITIAL_SIZE
    ensures Grow(INITIAL_SIZE, size) == size
  {
    var k: nat :| size == Pow2(k);
    assert Pow2(2) == INITIAL_SIZE;
    GrowPower(2, size);
  }

  lemma DoublePower(size: nat)
    requires PowerOfTwo(size)
    ensures PowerOfTwo(2 * size)
  {
    var k: nat :| size == Pow2(k);
    assert 2 * size == Pow2(k + 1);
  }
}
