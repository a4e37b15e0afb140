/** The open-addressing label table: probing, overwriting, and rehashing that can itself rehash. */
module HashMap {

  const INITIAL_SIZE := 256
  const MAX_CHAIN_LENGTH := 8

  datatype Slot<K, V> = Free | Used(key: K, value: V)

  datatype Lookup<V> = Missing | Found(value: V)

  /** The j-th slot tried from `home`, wrapping around at the end of the table. */
  function Probe(home: nat, j: nat, n: nat): (i: nat)
    requires home < n && j <= MAX_CHAIN_LENGTH <= n
    ensures i < n
  {
    if home + j < n then home + j else home + j - n
  }

  // ---- What a table means

  /** Slot `i` holds its key where probing finds it: within reach of its home, with no hole before it. */
  ghost predicate Reachable<K, V>(s: seq<Slot<K, V>>, i: nat, home: nat)
    requires i < |s| && home < |s| && MAX_CHAIN_LENGTH <= |s|
  {
    exists j :: 0 <= j < MAX_CHAIN_LENGTH && Probe(home, j, |s|) == i && NoHoleBefore(s, home, j)
  }

  ghost predicate NoHoleBefore<K, V>(s: seq<Slot<K, V>>, home: nat, j: nat)
    requires home < |s| && j <= MAX_CHAIN_LENGTH <= |s|
  {
    forall k :: 0 <= k < j ==> s[Probe(home, k, |s|)].Used?
  }

  ghost predicate Distinct<K, V>(s: seq<Slot<K, V>>) {
    forall i, j :: 0 <= i < j < |s| && s[i].Used? && s[j].Used? ==> s[i].key != s[j].key
  }

  ghost predicate AllReachable<K(!new), V>(hash: K -> nat, s: seq<Slot<K, V>>)
    requires MAX_CHAIN_LENGTH <= |s|
  {
    forall i :: 0 <= i < |s| && s[i].Used? ==> Reachable(s, i, hash(s[i].key) % |s|)
  }

  /** The slots hold exactly the entries of `m`. */
  ghost predicate Holds<K, V>(s: seq<Slot<K, V>>, m: map<K, V>) {
    && (forall i :: 0 <= i < |s| && s[i].Used? ==> s[i].key in m && m[s[i].key] == s[i].value)
    && (forall k :: k in m ==> exists i :: 0 <= i < |s| && s[i].Used? && s[i].key == k)
  }

  /** Probing for `key` ends at its j-th slot: earlier ones hold other keys, this one is free or holds it. */
  ghost predicate EndsAt<K, V>(s: seq<Slot<K, V>>, key: K, home: nat, j: nat)
    requires home < |s| && MAX_CHAIN_LENGTH <= |s|
  {
    j < MAX_CHAIN_LENGTH && Passes(s, key, home, j)
    && (s[Probe(home, j, |s|)].Free? || s[Probe(home, j, |s|)].key == key)
  }

  ghost predicate Passes<K, V>(s: seq<Slot<K, V>>, key: K, home: nat, j: nat)
    requires home < |s| && j <= MAX_CHAIN_LENGTH <= |s|
  {
    forall k :: 0 <= k < j ==> s[Probe(home, k, |s|)].Used? && s[Probe(home, k, |s|)].key != key
  }

  /** A stored key is where its probe ends, so it is never stored twice. */
  lemma StoredWhereProbeEnds<K, V>(s: seq<Slot<K, V>>, key: K, home: nat, j: nat, i: nat)
    requires home < |s| && MAX_CHAIN_LENGTH <= |s| && Distinct(s) && EndsAt(s, key, home, j)
    requires i < |s| && s[i].Used? && s[i].key == key && Reachable(s, i, home)
    ensures i == Probe(home, j, |s|)
  {
    var r :| 0 <= r < MAX_CHAIN_LENGTH && Probe(home, r, |s|) == i && NoHoleBefore(s, home, r);
    assert r >= j;
    assert j < r ==> s[Probe(home, j, |s|)].Used?;
  }

  /** None of the first `j` slots from `home` holds `key`, whether used or not. */
  ghost predicate Misses<K, V>(s: seq<Slot<K, V>>, key: K, home: nat, j: nat)
    requires home < |s| && j <= MAX_CHAIN_LENGTH <= |s|
  {
    forall k :: 0 <= k < j ==> s[Probe(home, k, |s|)].Free? || s[Probe(home, k, |s|)].key != key
  }

  lemma PassesMisses<K, V>(s: seq<Slot<K, V>>, key: K, home: nat)
    requires home < |s| && MAX_CHAIN_LENGTH <= |s| && Passes(s, key, home, MAX_CHAIN_LENGTH)
    ensures Misses(s, key, home, MAX_CHAIN_LENGTH)
  {}

  /** A key that no slot of its chain holds is not stored anywhere. */
  lemma MissedEverywhere<K(!new), V>(hash: K -> nat, s: seq<Slot<K, V>>, m: map<K, V>, key: K)
    requires MAX_CHAIN_LENGTH <= |s| && AllReachable(hash, s) && Holds(s, m)
    requires Misses(s, key, hash(key) % |s|, MAX_CHAIN_LENGTH)
    ensures key !in m
  {
    forall i | 0 <= i < |s| && s[i].Used?
      ensures s[i].key != key
    {
      assert Reachable(s, i, hash(s[i].key) % |s|);
    }
  }

  lemma HitIsEntry<K, V>(s: seq<Slot<K, V>>, m: map<K, V>, i: nat)
    requires i < |s| && s[i].Used? && Holds(s, m)
    ensures s[i].key in m && m[s[i].key] == s[i].value
  {}

  // ---- Storing at the end of a probe

  lemma StoreKeepsReach<K(!new), V>(hash: K -> nat, s: seq<Slot<K, V>>, key: K, value: V, j: nat)
    requires MAX_CHAIN_LENGTH <= |s| && AllReachable(hash, s) && EndsAt(s, key, hash(key) % |s|, j)
    ensures AllReachable(hash, s[Probe(hash(key) % |s|, j, |s|) := Used(key, value)])
  {
    var at := Probe(hash(key) % |s|, j, |s|);
    var t := s[at := Used(key, value)];
    forall i | 0 <= i < |t| && t[i].Used?
      ensures Reachable(t, i, hash(t[i].key) % |t|)
    {
      if i == at {
        assert NoHoleBefore(t, hash(key) % |t|, j);
      } else {
        var home := hash(s[i].key) % |s|;
        var r :| 0 <= r < MAX_CHAIN_LENGTH && Probe(home, r, |s|) == i && NoHoleBefore(s, home, r);
        assert NoHoleBefore(t, home, r);
      }
    }
  }

  lemma StoreUpdates<K(!new), V>(hash: K -> nat, s: seq<Slot<K, V>>, m: map<K, V>, key: K, value: V, j: nat)
    requires MAX_CHAIN_LENGTH <= |s| && AllReachable(hash, s) && Distinct(s) && Holds(s, m)
    requires EndsAt(s, key, hash(key) % |s|, j)
    ensures var t := s[Probe(hash(key) % |s|, j, |s|) := Used(key, value)];
            Distinct(t) && Holds(t, m[key := value])
    ensures s[Probe(hash(key) % |s|, j, |s|)].Used? <==> key in m
  {
    var home := hash(key) % |s|;
    var at := Probe(home, j, |s|);
    var t := s[at := Used(key, value)];
    forall i | 0 <= i < |s| && s[i].Used? && s[i].key == key
      ensures i == at
    {
      StoredWhereProbeEnds(s, key, home, j, i);
    }
    var m' := m[key := value];
    forall k | k in m'
      ensures exists i :: 0 <= i < |t| && t[i].Used? && t[i].key == k
    {
      if k == key {
        assert t[at].key == k;
      } else {
        var i :| 0 <= i < |s| && s[i].Used? && s[i].key == k;
        assert t[i] == s[i];
      }
    }
  }

  /** The entries in the first `i` slots. */
  ghost function Entries<K, V>(s: seq<Slot<K, V>>, i: nat): map<K, V>
    requires i <= |s|
  {
    if i == 0 then map[]
    else if s[i - 1].Free? then Entries(s, i - 1)
    else Entries(s, i - 1)[s[i - 1].key := s[i - 1].value]
  }

  lemma {:induction false} EntriesOfPrefix<K, V>(s: seq<Slot<K, V>>, i: nat, m: map<K, V>)
    requires i <= |s| && Distinct(s) && Holds(s, m)
    ensures forall k :: k in Entries(s, i) <==> exists q :: 0 <= q < i && s[q].Used? && s[q].key == k
    ensures forall k :: k in Entries(s, i) ==> k in m && Entries(s, i)[k] == m[k]
  {
    if i > 0 {
      EntriesOfPrefix(s, i - 1, m);
    }
  }

  /** Going over the slots meets each entry once: the next one is new, and at the end there are none left. */
  lemma EntriesProgress<K, V>(s: seq<Slot<K, V>>, i: nat, m: map<K, V>)
    requires i <= |s| && Distinct(s) && Holds(s, m)
    ensures |Entries(s, i)| <= |m| && Entries(s, i).Keys <= m.Keys
    ensures i < |s| && s[i].Used? ==> s[i].key !in Entries(s, i)
    ensures i == |s| ==> Entries(s, i) == m
  {
    EntriesOfPrefix(s, i, m);
    SmallerMap(Entries(s, i), m);
  }

  lemma SmallerMap<K, V>(a: map<K, V>, b: map<K, V>)
    requires a.Keys <= b.Keys
    ensures |a| <= |b|
  {
    SmallerSet(a.Keys, b.Keys);
    assert |a| == |a.Keys| && |b| == |b.Keys|;
  }

  lemma SmallerSet<K>(a: set<K>, b: set<K>)
    requires a <= b
    ensures |a| <= |b|
  {
    assert b == a + (b - a);
  }

  // ---- When a chain is full

  ghost function Homes<K(!new)>(hash: K -> nat, keys: set<K>, a: nat, b: int): set<K> {
    set k | k in keys && a <= hash(k) <= b
  }

  /** Keys with these hash values, stored in any order, leave no free slot from `a` to `b`. */
  ghost predicate Fills<K(!new)>(hash: K -> nat, keys: set<K>, a: nat, b: nat) {
    forall j :: a <= j <= b ==> |Homes(hash, keys, a, j)| >= j - a + 1
  }

  /** The other keys take every slot of the chain of `key`. */
  ghost predicate Crowded<K(!new)>(hash: K -> nat, others: set<K>, key: K) {
    exists a: nat :: FillsChain(hash, others, key, a)
  }

  ghost predicate FillsChain<K(!new)>(hash: K -> nat, others: set<K>, key: K, a: nat) {
    a <= hash(key) && Fills(hash, others, a, hash(key) + MAX_CHAIN_LENGTH - 1)
  }

  lemma CrowdedMonotone<K(!new)>(hash: K -> nat, some: set<K>, all: set<K>, key: K)
    requires some <= all && Crowded(hash, some, key)
    ensures Crowded(hash, all, key)
  {
    var b := hash(key) + MAX_CHAIN_LENGTH - 1;
    var a: nat :| FillsChain(hash, some, key, a);
    forall j | a <= j <= b
      ensures |Homes(hash, all, a, j)| >= j - a + 1
    {
      assert |Homes(hash, some, a, j)| >= j - a + 1;
      SmallerSet(Homes(hash, some, a, j), Homes(hash, all, a, j));
    }
    assert FillsChain(hash, all, key, a);
  }

  ghost predicate AllUsed<K, V>(s: seq<Slot<K, V>>, a: nat, b: nat)
    requires b <= |s|
  {
    forall i :: a <= i < b ==> s[i].Used?
  }

  ghost function KeysIn<K(!new), V>(s: seq<Slot<K, V>>, a: nat, b: nat): set<K>
    requires b <= |s|
  {
    set i | a <= i < b && s[i].Used? :: s[i].key
  }

  /** A stretch of slots holds at most its length in keys, and exactly that many when all are used. */
  lemma {:induction false} KeyCount<K(!new), V>(s: seq<Slot<K, V>>, a: nat, b: nat)
    requires a <= b <= |s| && Distinct(s)
    ensures |KeysIn(s, a, b)| <= b - a
    ensures AllUsed(s, a, b) ==> |KeysIn(s, a, b)| == b - a
    decreases b - a
  {
    if a < b {
      KeyCount(s, a, b - 1);
      var front := KeysIn(s, a, b - 1);
      if s[b - 1].Used? {
        assert KeysIn(s, a, b) == front + {s[b - 1].key};
      } else {
        assert KeysIn(s, a, b) == front;
      }
    } else {
      assert KeysIn(s, a, b) == {};
    }
  }

  /** Where the unbroken stretch of used slots that reaches `h` begins. */
  ghost function StretchStart<K, V>(s: seq<Slot<K, V>>, h: nat): (a: nat)
    requires h < |s| && s[h].Used?
    ensures a <= h && AllUsed(s, a, h + 1) && (a > 0 ==> s[a - 1].Free?)
  {
    if h == 0 || s[h - 1].Free? then h else StretchStart(s, h - 1)
  }

  lemma SmallRemainder(h: nat, n: nat)
    requires h < n
    ensures h % n == h
  {}

  /** In a table larger than the keys' hash values nothing wraps around: a key is at most seven slots past its hash. */
  lemma StoredNearHash<K(!new), V>(hash: K -> nat, s: seq<Slot<K, V>>, i: nat)
    requires MAX_CHAIN_LENGTH <= |s| && AllReachable(hash, s) && i < |s| && s[i].Used?
    requires hash(s[i].key) + MAX_CHAIN_LENGTH <= |s|
    ensures hash(s[i].key) <= i < hash(s[i].key) + MAX_CHAIN_LENGTH && AllUsed(s, hash(s[i].key), i)
  {
    var h := hash(s[i].key);
    SmallRemainder(h, |s|);
    assert Reachable(s, i, h);
    var r :| 0 <= r < MAX_CHAIN_LENGTH && Probe(h, r, |s|) == i && NoHoleBefore(s, h, r);
    forall x | h <= x < i
      ensures s[x].Used?
    {
      assert Probe(h, x - h, |s|) == x;
    }
  }

  /** A table without wrap-around, holding the entries of `m`. */
  ghost predicate Spacious<K(!new), V>(hash: K -> nat, s: seq<Slot<K, V>>, m: map<K, V>) {
    && MAX_CHAIN_LENGTH <= |s| && Distinct(s) && AllReachable(hash, s) && Holds(s, m)
    && forall k :: k in m ==> hash(k) + MAX_CHAIN_LENGTH <= |s|
  }

  ghost predicate ChainTaken<K, V>(s: seq<Slot<K, V>>, key: K, h: nat)
    requires h + MAX_CHAIN_LENGTH <= |s|
  {
    forall x :: h <= x < h + MAX_CHAIN_LENGTH ==> s[x].Used? && s[x].key != key
  }

  lemma ChainInOrder<K, V>(s: seq<Slot<K, V>>, key: K, h: nat)
    requires h + MAX_CHAIN_LENGTH <= |s|
    ensures Passes(s, key, h, MAX_CHAIN_LENGTH) <==> ChainTaken(s, key, h)
  {
    if Passes(s, key, h, MAX_CHAIN_LENGTH) {
      forall x | h <= x < h + MAX_CHAIN_LENGTH
        ensures s[x].Used? && s[x].key != key
      {
        assert s[Probe(h, x - h, |s|)].Used?;
      }
    }
  }

  lemma FullMeansCrowded<K(!new), V>(hash: K -> nat, s: seq<Slot<K, V>>, m: map<K, V>, key: K)
    requires Spacious(hash, s, m) && hash(key) + MAX_CHAIN_LENGTH <= |s|
    requires Passes(s, key, hash(key), MAX_CHAIN_LENGTH)
    ensures Crowded(hash, m.Keys, key)
  {
    var h := hash(key);
    ChainInOrder(s, key, h);
    hide AllReachable, Passes, Holds;
    var a := StretchStart(s, h);
    var b := h + MAX_CHAIN_LENGTH - 1;
    forall j | a <= j <= b
      ensures |Homes(hash, m.Keys, a, j)| >= j - a + 1
    {
      assert AllUsed(s, a, j + 1);
      KeyCount(s, a, j + 1);
      forall i | a <= i <= j
        ensures s[i].key in Homes(hash, m.Keys, a, j)
      {
        StoredNearHash(hash, s, i);
        assert a > 0 ==> s[a - 1].Free?;
      }
      SmallerSet(KeysIn(s, a, j + 1), Homes(hash, m.Keys, a, j));
    }
    assert FillsChain(hash, m.Keys, key, a);
  }

  lemma FilledIsUsed<K(!new), V>(hash: K -> nat, s: seq<Slot<K, V>>, m: map<K, V>, a: nat, b: nat, x: nat)
    requires Spacious(hash, s, m) && a <= x <= b < |s| && Fills(hash, m.Keys, a, b)
    ensures s[x].Used?
  {
    if s[x].Free? {
      KeyCount(s, a, x);
      forall k | k in Homes(hash, m.Keys, a, x)
        ensures k in KeysIn(s, a, x)
      {
        var i :| 0 <= i < |s| && s[i].Used? && s[i].key == k;
        StoredNearHash(hash, s, i);
        assert i < x;
      }
      assert |Homes(hash, m.Keys, a, x)| >= x - a + 1;
      SmallerSet(Homes(hash, m.Keys, a, x), KeysIn(s, a, x));
      assert false;
    }
  }

  /**
   * Whether a new key finds room does not depend on how the others came to be stored: in any table without wrap-around
   * its chain is full exactly when the stored keys' hash values crowd it. Doubling such a table changes nothing.
   */
  lemma NoRoomIffCrowded<K(!new), V>(hash: K -> nat, s: seq<Slot<K, V>>, m: map<K, V>, key: K)
    requires Spacious(hash, s, m) && key !in m && hash(key) + MAX_CHAIN_LENGTH <= |s|
    ensures Passes(s, key, hash(key), MAX_CHAIN_LENGTH) <==> Crowded(hash, m.Keys, key)
  {
    ChainInOrder(s, key, hash(key));
    if Crowded(hash, m.Keys, key) {
      var b := hash(key) + MAX_CHAIN_LENGTH - 1;
      var a: nat :| FillsChain(hash, m.Keys, key, a);
      forall x | hash(key) <= x <= b
        ensures s[x].Used? && s[x].key != key
      {
        FilledIsUsed(hash, s, m, a, b, x);
      }
    } else if Passes(s, key, hash(key), MAX_CHAIN_LENGTH) {
      FullMeansCrowded(hash, s, m, key);
    }
  }

  /** No key can be crowded out by the others, and hash values stay below `limit`. */
  ghost predicate Roomy<K(!new)>(hash: K -> nat, keys: set<K>, limit: nat) {
    && (forall k :: k in keys ==> hash(k) + MAX_CHAIN_LENGTH <= limit)
    && (forall k :: k in keys ==> !Crowded(hash, keys - {k}, k))
  }

  /** Eight keys or fewer always have room, even if all share one hash value. */
  lemma FewKeysAreRoomy<K(!new)>(hash: K -> nat, keys: set<K>, limit: nat)
    requires |keys| <= MAX_CHAIN_LENGTH && forall k :: k in keys ==> hash(k) + MAX_CHAIN_LENGTH <= limit
    ensures Roomy(hash, keys, limit)
  {
    forall k | k in keys
      ensures !Crowded(hash, keys - {k}, k)
    {
      var b := hash(k) + MAX_CHAIN_LENGTH - 1;
      forall a: nat | a <= hash(k)
        ensures !FillsChain(hash, keys - {k}, k, a)
      {
        SmallerSet(Homes(hash, keys - {k}, a, b), keys - {k});
        assert |keys - {k}| < b - a + 1;
      }
    }
  }

  /** Keys with distinct hash values always have room, however many there are. */
  lemma DistinctHashesAreRoomy<K(!new)>(hash: K -> nat, keys: set<K>, limit: nat)
    requires forall k :: k in keys ==> hash(k) + MAX_CHAIN_LENGTH <= limit
    requires forall k, l :: k in keys && l in keys && hash(k) == hash(l) ==> k == l
    ensures Roomy(hash, keys, limit)
  {
    forall k | k in keys
      ensures !Crowded(hash, keys - {k}, k)
    {
      var b := hash(k) + MAX_CHAIN_LENGTH - 1;
      forall a: nat | a <= hash(k)
        ensures !FillsChain(hash, keys - {k}, k, a)
      {
        OnePerHash(hash, keys, a, b);
        var all := Homes(hash, keys, a, b);
        assert Homes(hash, keys - {k}, a, b) == all - {k} && k in all;
      }
    }
  }

  lemma {:induction false} OnePerHash<K(!new)>(hash: K -> nat, keys: set<K>, a: nat, b: int)
    requires a <= b + 1
    requires forall k, l :: k in keys && l in keys && hash(k) == hash(l) ==> k == l
    ensures |Homes(hash, keys, a, b)| <= b - a + 1
    decreases b - a + 1
  {
    if a <= b {
      OnePerHash(hash, keys, a, b - 1);
      var front := Homes(hash, keys, a, b - 1);
      if k :| k in keys && hash(k) == b {
        assert Homes(hash, keys, a, b) == front + {k};
      } else {
        assert Homes(hash, keys, a, b) == front;
      }
    } else {
      assert Homes(hash, keys, a, b) == {};
    }
  }

  /** Keys that have room never find their chain full once the table exceeds the hash values. */
  lemma NeverFull<K(!new), V>(hash: K -> nat, s: seq<Slot<K, V>>, m: map<K, V>, key: K, keys: set<K>, limit: nat)
    requires MAX_CHAIN_LENGTH <= |s| && limit <= |s| && Distinct(s) && AllReachable(hash, s) && Holds(s, m)
    requires Roomy(hash, keys, limit) && key in keys && m.Keys <= keys
    ensures !Passes(s, key, hash(key) % |s|, MAX_CHAIN_LENGTH)
  {
    SmallRemainder(hash(key), |s|);
    if Passes(s, key, hash(key), MAX_CHAIN_LENGTH) {
      PassesMisses(s, key, hash(key));
      hide Passes, AllReachable, Distinct, Holds, Misses, Crowded;
      MissedEverywhere(hash, s, m, key);
      FullMeansCrowded(hash, s, m, key);
      CrowdedMonotone(hash, m.Keys, keys - {key}, key);
    }
  }

  class Table<K(==, !new), V> {
    const hash: K -> nat
    ghost const keys: set<K>    // the keys ever used
    ghost const limit: nat

    var slots: array<Slot<K, V>>
    var size: nat               // puts since the last rehash, overwrites included

    ghost var contents: map<K, V>

    ghost predicate Valid()
      reads this, slots
    {
      && Roomy(hash, keys, limit)
      && INITIAL_SIZE <= slots.Length && slots.Length % 2 == 0
      && |contents| <= size <= slots.Length / 2
      && contents.Keys <= keys
      && Placed()
    }

    ghost predicate Placed()
      requires MAX_CHAIN_LENGTH <= slots.Length
      reads this, slots
    {
      Distinct(slots[..]) && AllReachable(hash, slots[..]) && Holds(slots[..], contents)
    }

    constructor (hash: K -> nat, ghost keys: set<K>, ghost limit: nat)
      requires Roomy(hash, keys, limit)
      ensures Valid() && contents == map[] && fresh(slots)
      ensures this.hash == hash && this.keys == keys && this.limit == limit
    {
      this.hash, this.keys, this.limit := hash, keys, limit;
      slots := new Slot<K, V>[INITIAL_SIZE](_ => Free);
      size := 0;
      contents := map[];
    }

    /** `hashmap_hash`: the slot to store `key` in, or none when the table or the chain is full. */
    method FindSlot(key: K) returns (full: bool, at: nat, ghost j: nat)
      requires Valid()
      ensures !full ==> size < slots.Length / 2 && EndsAt(slots[..], key, hash(key) % slots.Length, j)
                        && at == Probe(hash(key) % slots.Length, j, slots.Length)
      ensures full ==> size >= slots.Length / 2 || Passes(slots[..], key, hash(key) % slots.Length, MAX_CHAIN_LENGTH)
    {
      full, at, j := true, 0, 0;
      if size >= slots.Length / 2 { return; }
      var home := hash(key) % slots.Length;
      var curr := home;
      for i := 0 to MAX_CHAIN_LENGTH
        invariant curr == Probe(home, i, slots.Length)
        invariant Passes(slots[..], key, home, i)
      {
        if slots[curr].Free? || slots[curr].key == key {
          return false, curr, i;
        }
        curr := if curr + 1 == slots.Length then 0 else curr + 1;
      }
    }

    /** `hmap_get`: all slots of the chain are looked at, holes or not. */
    method Get(key: K) returns (r: Lookup<V>)
      requires Valid()
      ensures r == if key in contents then Found(contents[key]) else Missing
    {
      hide AllReachable, Roomy, Distinct, Holds;
      var home := hash(key) % slots.Length;
      var curr := home;
      for i := 0 to MAX_CHAIN_LENGTH
        invariant curr == Probe(home, i, slots.Length)
        invariant Misses(slots[..], key, home, i)
      {
        if slots[curr].Used? && slots[curr].key == key {
          assert slots[..][curr] == slots[curr];
          HitIsEntry(slots[..], contents, curr);
          return Found(slots[curr].value);
        }
        curr := if curr + 1 == slots.Length then 0 else curr + 1;
      }
      MissedEverywhere(hash, slots[..], contents, key);
      r := Missing;
    }

    /** How far the table is from the size at which every key fits in its own slot. */
    ghost function Slack(): nat
      reads this
    {
      if slots.Length < limit then limit - slots.Length else 0
    }

    ghost predicate MayRehash()
      reads this
    {
      slots.Length < limit || size >= slots.Length / 2
    }

    lemma FullMeansSmall(key: K)
      requires Valid() && key in keys && Passes(slots[..], key, hash(key) % slots.Length, MAX_CHAIN_LENGTH)
      ensures slots.Length < limit
    {
      if slots.Length >= limit {
        NeverFull(hash, slots[..], contents, key, keys, limit);
      }
    }

    /** `hmap_put`: find a slot, rehashing for as long as there is none, and store there. */
    method Put(key: K, value: V)
      requires Valid() && key in keys
      modifies this, slots
      ensures Valid() && contents == old(contents)[key := value]
      ensures slots == old(slots) || fresh(slots)
      ensures slots.Length >= old(slots.Length)
      ensures key !in old(contents) && old(size) == |old(contents)| ==> size == |contents|
      decreases Slack(), if MayRehash() then 2 else 0
    {
      hide Placed;
      ghost var may := MayRehash();
      var full, at, j := FindSlot(key);
      if full && size < slots.Length / 2 { FullMeansSmall(key); }
      while full
        invariant Valid() && contents == old(contents) && (slots == old(slots) || fresh(slots))
        invariant slots.Length >= old(slots.Length)
        invariant full ==> may && MayRehash()
        invariant slots.Length > old(slots.Length) ==> may
        invariant size == old(size) || size == |contents|
        invariant !full ==> size < slots.Length / 2 && EndsAt(slots[..], key, hash(key) % slots.Length, j)
                            && at == Probe(hash(key) % slots.Length, j, slots.Length)
        decreases Slack(), if size >= slots.Length / 2 then 1 else 0
      {
        Rehash();
        full, at, j := FindSlot(key);
        if full && size < slots.Length / 2 { FullMeansSmall(key); }
      }
      StoreAt(key, value, at, j);
    }

    method StoreAt(key: K, value: V, at: nat, ghost j: nat)
      requires Valid() && key in keys && size < slots.Length / 2
      requires EndsAt(slots[..], key, hash(key) % slots.Length, j)
          && at == Probe(hash(key) % slots.Length, j, slots.Length)
      modifies this`size, this`contents, slots
      ensures Valid() && contents == old(contents)[key := value] && size == old(size) + 1
    {
      ghost var s := slots[..];
      StoreKeepsReach(hash, s, key, value, j);
      StoreUpdates(hash, s, contents, key, value, j);
      hide AllReachable, Distinct, Holds, EndsAt, Roomy;
      slots[at] := Used(key, value);
      assert slots[..] == s[at := Used(key, value)];
      size := size + 1;
      contents := contents[key := value];
    }

    /** An empty table of `n` slots. */
    method Clear(n: nat)
      requires Valid() && n >= INITIAL_SIZE && n % 2 == 0
      modifies this
      ensures Valid() && contents == map[] && size == 0 && fresh(slots) && slots.Length == n
    {
      slots := new Slot<K, V>[n](_ => Free);
      size := 0;
      contents := map[];
    }

    /** `hmap_iterate`: what the visitor is shown, slot by slot. */
    method Iterate() returns (visited: seq<(K, V)>)
      requires Valid()
      ensures forall i, j :: 0 <= i < j < |visited| ==> visited[i].0 != visited[j].0
      ensures forall i :: 0 <= i < |visited| ==> visited[i].0 in contents && contents[visited[i].0] == visited[i].1
      ensures forall k :: k in contents ==> (k, contents[k]) in visited
    {
      hide AllReachable, Roomy, Distinct;
      visited := [];
      if size <= 0 { return; }
      ghost var at: seq<nat> := [];
      for i := 0 to slots.Length
        invariant |at| == |visited|
        invariant forall q :: 0 <= q < |at| ==> at[q] < i && slots[..][at[q]] == Used(visited[q].0, visited[q].1)
        invariant forall q, r :: 0 <= q < r < |at| ==> at[q] < at[r]
        invariant forall h :: 0 <= h < i && slots[..][h].Used? ==> (slots[..][h].key, slots[..][h].value) in visited
      {
        if slots[i].Used? {
          visited := visited + [(slots[i].key, slots[i].value)];
          at := at + [i];
        }
      }
      VisitedOnce(slots[..], at, visited);
      forall k | k in contents
        ensures (k, contents[k]) in visited
      {
        var i :| 0 <= i < slots.Length && slots[..][i].Used? && slots[..][i].key == k;
      }
    }

    /** `hashmap_rehash`: a table twice the size, into which every entry is put again. */
    method Rehash()
      requires Valid()
      modifies this
      ensures Valid() && contents == old(contents) && size == |contents|
      ensures fresh(slots) && slots.Length >= 2 * old(slots.Length)
      decreases Slack(), 1
    {
      hide Entries, Holds, Distinct, AllReachable, Roomy;
      var curr := slots;
      ghost var s, all := slots[..], contents;
      Clear(2 * curr.Length);
      hide Placed;
      EntriesNone(s);
      for i := 0 to curr.Length
        invariant Valid() && fresh(slots) && slots.Length >= 2 * curr.Length
        invariant curr[..] == s && contents == Entries(s, i) && size == |contents|
      {
        EntriesProgress(s, i, all);
        EntriesNext(s, i);
        if curr[i].Used? {
          assert s[i] == curr[i];
          HitIsEntry(s, all, i);
          Put(curr[i].key, curr[i].value);
        }
      }
      EntriesProgress(s, |s|, all);
    }
  }

  /** Different slots show different keys. */
  lemma VisitedOnce<K, V>(s: seq<Slot<K, V>>, at: seq<nat>, visited: seq<(K, V)>)
    requires Distinct(s) && |at| == |visited|
    requires forall q :: 0 <= q < |at| ==> at[q] < |s| && s[at[q]] == Used(visited[q].0, visited[q].1)
    requires forall q, r :: 0 <= q < r < |at| ==> at[q] < at[r]
    ensures forall i, j :: 0 <= i < j < |visited| ==> visited[i].0 != visited[j].0
  {}

  lemma EntriesNone<K, V>(s: seq<Slot<K, V>>)
    ensures Entries(s, 0) == map[]
  {}

  lemma EntriesNext<K, V>(s: seq<Slot<K, V>>, i: nat)
    requires i < |s|
    ensures Entries(s, i + 1) == if s[i].Free? then Entries(s, i) else Entries(s, i)[s[i].key := s[i].value]
  {}

  // ---- Why there must be room

  /** At most eight stored keys share one hash value, whatever the table size: a put of a ninth could never end. */
  lemma AtMostEightShare<K(!new), V>(hash: K -> nat, s: seq<Slot<K, V>>, h: nat, at: seq<nat>)
    requires MAX_CHAIN_LENGTH <= |s| && AllReachable(hash, s)
    requires forall i, j :: 0 <= i < j < |at| ==> at[i] != at[j]
    requires forall i :: 0 <= i < |at| ==> at[i] < |s| && s[at[i]].Used? && hash(s[at[i]].key) == h
    ensures |at| <= 8
  {
    var home := h % |s|;
    var reach := set j: nat | j < 8 :: Probe(home, j, |s|);
    forall i | 0 <= i < |at|
      ensures at[i] in reach
    {
      assert Reachable(s, at[i], home);
    }
    ReachIsEight(home, |s|);
    DistinctCount(at, |at|);
    SmallerSet(set i | 0 <= i < |at| :: at[i], reach);
  }

  lemma ReachIsEight(home: nat, n: nat)
    requires home < n && MAX_CHAIN_LENGTH <= n
    ensures |set j: nat | j < 8 :: Probe(home, j, n)| <= 8
  {
    ProbeCount(home, n, 8);
  }

  lemma {:induction false} ProbeCount(home: nat, n: nat, m: nat)
    requires home < n && MAX_CHAIN_LENGTH <= n && m <= 8
    ensures |set j: nat | j < m :: Probe(home, j, n)| <= m
  {
    if m > 0 {
      ProbeCount(home, n, m - 1);
      assert (set j: nat | j < m :: Probe(home, j, n))
          == (set j: nat | j < m - 1 :: Probe(home, j, n)) + {Probe(home, m - 1, n)};
    }
  }

  lemma {:induction false} DistinctCount(at: seq<nat>, m: nat)
    requires m <= |at| && forall i, j :: 0 <= i < j < |at| ==> at[i] != at[j]
    ensures |set i | 0 <= i < m :: at[i]| == m
  {
    if m > 0 {
      DistinctCount(at, m - 1);
      assert (set i | 0 <= i < m :: at[i]) == (set i | 0 <= i < m - 1 :: at[i]) + {at[m - 1]};
    }
  }
}
