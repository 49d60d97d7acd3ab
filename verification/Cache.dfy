/** The flow cache (`cache-trusted.c`, `cache-untrusted.c`): a fixed pool of entries, two hash maps, a
    list in order of use and a running checksum. */
module Cache {
  import opened Sequences
  import opened Options

  type U32 = x: nat | x < 0x1_0000_0000
  type U64 = x: nat | x < 0x1_0000_0000_0000_0000

  /** `cls_cache_entry`: the rule, null when the entry is free, and the hash it is stored under. */
  datatype Entry = Entry(cr: Option<nat>, hash: nat)

  /** `cache_entry_hash` of the stored hash and the rule */
  type EntryHash = (nat, nat) -> U32

  function Weight(mix: EntryHash, e: Entry): U32 {
    if e.cr.Some? then mix(e.hash, e.cr.value) else 0
  }

  /** The sum of the hashes of all live entries. */
  ghost function Total(mix: EntryHash, pool: seq<Entry>): nat {
    if pool == [] then 0 else Total(mix, pool[..|pool| - 1]) + Weight(mix, pool[|pool| - 1])
  }

  lemma {:induction false} TotalUpdate(mix: EntryHash, pool: seq<Entry>, i: nat, e: Entry)
    requires i < |pool|
    ensures Total(mix, pool[i := e]) + Weight(mix, pool[i]) == Total(mix, pool) + Weight(mix, e)
  {
    var n := |pool| - 1;
    if i == n {
      assert pool[i := e][..n] == pool[..n];
    } else {
      assert pool[i := e][..n] == pool[..n][i := e];
      TotalUpdate(mix, pool[..n], i, e);
    }
  }

  /** Reduction modulo 2^64. */
  function Wrap(x: int): U64 {
    x % 0x1_0000_0000_0000_0000
  }

  /** Adding or subtracting under reduction keeps step with the sum. */
  lemma WrapStep(sum: int, d: int)
    ensures Wrap(Wrap(sum) + d) == Wrap(sum + d)
  {
  }

  /** The sum notices a change of one entry, be it filled, freed or altered, just when the change is one
      of the entry's hash. */
  lemma ChangeSeenIff(mix: EntryHash, pool: seq<Entry>, i: nat, e: Entry)
    requires i < |pool|
    ensures var was, now := pool[i], e;
            Wrap(Total(mix, pool[i := e])) == Wrap(Total(mix, pool))
            <==> (if was.cr.Some? then mix(was.hash, was.cr.value) else 0)
                 == (if now.cr.Some? then mix(now.hash, now.cr.value) else 0)
  {
    TotalUpdate(mix, pool, i, e);
  }

  function Live(pool: seq<Entry>): set<nat> {
    set e | 0 <= e < |pool| && pool[e].cr.Some?
  }

  /** The list names every entry of the pool once. */
  ghost predicate Permutation(lru: seq<nat>, n: nat) {
    && |lru| == n
    && (forall i | 0 <= i < |lru| :: lru[i] < n)
    && (forall i, j | 0 <= i < j < |lru| :: lru[i] != lru[j])
  }

  /** `list_remove` of an entry, then `list_push_back`. */
  function Touch(lru: seq<nat>, e: nat): seq<nat> {
    Without(lru, e) + [e]
  }

  /** Entries stand in the list in the order in which they were last used. */
  ghost predicate InOrder(lru: seq<nat>, stamp: nat -> nat) {
    forall i, j | 0 <= i < j < |lru| :: stamp(lru[i]) < stamp(lru[j])
  }

  lemma TouchKeeps(lru: seq<nat>, n: nat, e: nat, stamp: nat -> nat, now: nat)
    requires Permutation(lru, n) && e < n && InOrder(lru, stamp) && forall i | 0 <= i < |lru| :: stamp(lru[i]) < now
    ensures Permutation(Touch(lru, e), n) && InOrder(Touch(lru, e), x => if x == e then now else stamp(x))
  {
    var k := TouchShape(lru, n, e);
    var to, later := Touch(lru, e), x => if x == e then now else stamp(x);
    forall i, j | 0 <= i < j < |to| ensures to[i] != to[j] && later(to[i]) < later(to[j]) {
      var p, q := if i < k then i else i + 1, if j < k then j else j + 1;
      assert to[i] == lru[p] && p != k && lru[p] != e;
      if j < n - 1 { assert to[j] == lru[q] && q != k && lru[q] != e && stamp(lru[p]) < stamp(lru[q]); }
    }
  }

  /** Where the entries of the list are after one has been moved to the back. */
  lemma TouchShape(lru: seq<nat>, n: nat, e: nat) returns (k: nat)
    requires Permutation(lru, n) && e < n
    ensures k < n && lru[k] == e && |Touch(lru, e)| == n && Touch(lru, e)[n - 1] == e
    ensures forall i | 0 <= i < n - 1 :: Touch(lru, e)[i] == lru[if i < k then i else i + 1]
    ensures forall i | 0 <= i < n && i != k :: lru[i] != e
  {
    Covers(lru, n, e);
    k :| 0 <= k < |lru| && lru[k] == e;
    WithoutAt(lru, e, k);
  }

  /** A list of `n` distinct entries below `n` has them all. */
  lemma Covers(lru: seq<nat>, n: nat, e: nat)
    requires Permutation(lru, n) && e < n
    ensures e in lru
  {
    var names := set i | 0 <= i < |lru| :: lru[i];
    var all := Below(n);
    CountDistinct(lru);
    if e !in lru {
      assert names <= all - {e};
      SubsetSize(names, all - {e});
    }
  }

  lemma {:induction false} CountDistinct(s: seq<nat>)
    requires forall i, j | 0 <= i < j < |s| :: s[i] != s[j]
    ensures |set i | 0 <= i < |s| :: s[i]| == |s|
  {
    if s != [] {
      var n := |s| - 1;
      var t := s[..n];
      CountDistinct(t);
      var a, b := set i | 0 <= i < |s| :: s[i], set i | 0 <= i < |t| :: t[i];
      forall x | x in a ensures x in b + {s[n]} {
        var i :| 0 <= i < |s| && s[i] == x;
        if i < n { assert t[i] == x; }
      }
      forall x | x in b ensures x in a && x != s[n] {
        var i :| 0 <= i < |t| && t[i] == x;
        assert s[i] == x;
      }
      assert s[n] in a;
      assert a == b + {s[n]};
    }
  }

  function Below(n: nat): (all: set<nat>)
    ensures |all| == n && forall x :: x in all <==> 0 <= x < n
  {
    if n == 0 then {} else Below(n - 1) + {n - 1}
  }

  /** The entries that `flow_map_cache_remove_ut_cr` can find: those of the rule, stored under the hash
      of the first 8 bytes of the rule. */
  function Findable(pool: seq<Entry>, cr: nat, searchHash: nat): set<nat> {
    set e | 0 <= e < |pool| && pool[e].cr == Some(cr) && pool[e].hash == searchHash
  }

  function Holding(pool: seq<Entry>, cr: nat): set<nat> {
    set e | 0 <= e < |pool| && pool[e].cr == Some(cr)
  }

  /** Removal by rule clears the rule out of the cache, if and only if every entry that holds it is
      stored under the searched hash and there is at most one. */
  lemma RemovalClearsIff(pool: seq<Entry>, cr: nat, searchHash: nat, e: nat)
    requires Findable(pool, cr, searchHash) == {} || e in Findable(pool, cr, searchHash)
    ensures var to := if Findable(pool, cr, searchHash) == {} then pool else pool[e := pool[e].(cr := None)];
            Holding(to, cr) == {} <==> Holding(pool, cr) == Findable(pool, cr, searchHash) && |Holding(pool, cr)| <= 1
  {
    var found, held := Findable(pool, cr, searchHash), Holding(pool, cr);
    var to := if found == {} then pool else pool[e := pool[e].(cr := None)];
    assert found <= held;
    if found == {} {
      assert Holding(to, cr) == held;
    } else {
      assert Holding(to, cr) == held - {e};
      assert held == (held - {e}) + {e};
      if Holding(to, cr) == {} { assert held == {e}; assert found == {e}; }
      if |held| <= 1 { assert |held - {e}| == 0; }
    }
  }

  /** The hashes differ in kind, so the condition fails already for one entry. */
  lemma RemovalMisses()
    ensures var pool := [Entry(Some(7), 1)]; Holding(pool, 7) == {0} && Findable(pool, 7, 2) == {}
  {
  }

  class FlowCache {
    var pool: seq<Entry>
    /** `entries` and `ut_crs`: the numbers of the entries in the two maps. */
    var entries: set<nat>
    var utCrs: set<nat>
    var lru: seq<nat>
    var checksum: U64
    const mix: EntryHash
    /** When each entry was last used. */
    ghost var stamp: nat -> nat
    ghost var clock: nat

    ghost predicate Valid()
      reads this
    {
      && pool != [] && entries == Live(pool) && utCrs == Live(pool)
      && checksum == Wrap(Total(mix, pool))
      && Permutation(lru, |pool|)
      && InOrder(lru, stamp) && forall i | 0 <= i < |lru| :: stamp(lru[i]) < clock
    }

    /** `flow_map_cache_init` */
    constructor (cap: nat, mix: EntryHash)
      requires cap > 0
      ensures Valid() && |pool| == cap && Live(pool) == {} && checksum == 0 && this.mix == mix
    {
      this.mix := mix;
      entries, utCrs, checksum := {}, {}, 0;
      new;
      var made: seq<Entry>, order: seq<nat> := [], [];
      for i := 0 to cap
        invariant |made| == |order| == i && (forall k | 0 <= k < i :: made[k] == Entry(None, 0) && order[k] == k)
        invariant Total(mix, made) == 0 && mix == this.mix
        invariant entries == {} && utCrs == {} && checksum == 0
      {
        assert (made + [Entry(None, 0)])[..i] == made;
        made := made + [Entry(None, 0)];
        order := order + [i];
      }
      pool, lru := made, order;
      stamp, clock := x => x, cap;
    }

    /** Moves an entry to the back of the list. */
    method MoveToBack(e: nat)
      requires Permutation(lru, |pool|) && InOrder(lru, stamp)
      requires (forall i | 0 <= i < |lru| :: stamp(lru[i]) < clock) && e < |pool|
      modifies this`lru, this`stamp, this`clock
      ensures lru == Touch(old(lru), e) && stamp(e) == old(clock)
      ensures Permutation(lru, |pool|) && InOrder(lru, stamp) && forall i | 0 <= i < |lru| :: stamp(lru[i]) < clock
      ensures forall x | x != e :: stamp(x) == old(stamp)(x)
    {
      TouchKeeps(lru, |pool|, e, stamp, clock);
      lru := Touch(lru, e);
      ghost var was, now := stamp, clock;
      stamp := x => if x == e then now else was(x);
      ghost var to := lru;
      forall i | 0 <= i < |to| ensures stamp(to[i]) < clock + 1 { TouchIn(old(lru), |pool|, e, i); }
      clock := clock + 1;
    }

    /** `remove_cache_entry` with the checksum update made before it. */
    method Free(e: nat)
      requires e < |pool| && pool[e].cr.Some? && entries == utCrs == Live(pool) && checksum == Wrap(Total(mix, pool))
      modifies this`pool, this`entries, this`utCrs, this`checksum
      ensures pool == old(pool)[e := old(pool)[e].(cr := None)]
      ensures entries == utCrs == Live(pool) == Live(old(pool)) - {e} && checksum == Wrap(Total(mix, pool))
    {
      TotalUpdate(mix, pool, e, pool[e].(cr := None));
      WrapStep(Total(mix, pool), 0 - Weight(mix, pool[e]));
      checksum := Wrap(checksum - mix(pool[e].hash, pool[e].cr.value));
      entries := entries - {e};
      utCrs := utCrs - {e};
      pool := pool[e := pool[e].(cr := None)];
    }

    /** `flow_map_cache_remove_ut_cr`: frees one entry of the rule that is stored under the hash of its
        first 8 bytes, if there is one, and puts it at the back of the list. */
    method RemoveRule(cr: nat, searchHash: nat) returns (ghost e: nat)
      requires Valid()
      modifies this`pool, this`entries, this`utCrs, this`checksum, this`lru, this`stamp, this`clock
      ensures Valid() && |pool| == |old(pool)|
      ensures Findable(old(pool), cr, searchHash) == {} ==> pool == old(pool) && lru == old(lru)
      ensures Findable(old(pool), cr, searchHash) != {} ==>
                && e in Findable(old(pool), cr, searchHash)
                && pool == old(pool)[e := old(pool)[e].(cr := None)] && lru == Touch(old(lru), e)
      ensures Holding(pool, cr) == {} <==>
                Holding(old(pool), cr) == Findable(old(pool), cr, searchHash) && |Holding(old(pool), cr)| <= 1
    {
      e := 0;
      var found := Findable(pool, cr, searchHash);
      if found != {} {
        var x :| x in found;
        e := x;
        RemovalClearsIff(pool, cr, searchHash, x);
        Free(x);
        MoveToBack(x);
      } else {
        RemovalClearsIff(pool, cr, searchHash, 0);
      }
    }

    /** `flow_map_cache_insert`: takes the entry used longest ago, whatever is in it. */
    method Insert(hash: nat, cr: nat) returns (e: nat)
      requires Valid()
      modifies this`pool, this`entries, this`utCrs, this`checksum, this`lru, this`stamp, this`clock
      ensures Valid() && |pool| == |old(pool)| && e == old(lru)[0]
      ensures forall x | 0 <= x < |pool| && x != e :: old(stamp)(e) < old(stamp)(x)
      ensures pool == old(pool)[e := Entry(Some(cr), hash)] && lru == Touch(old(lru), e)
      ensures entries == old(entries) + {e}
    {
      hide Permutation, InOrder;
      OldestFirst(lru, |pool|, stamp);
      e := lru[0];
      if pool[e].cr.Some? {
        Free(e);
      }
      MoveToBack(e);
      Fill(e, hash, cr);
    }

    /** `insert_cache_entry`, but for the move in the list. */
    method Fill(e: nat, hash: nat, cr: nat)
      requires e < |pool| && pool[e].cr.None? && entries == utCrs == Live(pool) && checksum == Wrap(Total(mix, pool))
      modifies this`pool, this`entries, this`utCrs, this`checksum
      ensures pool == old(pool)[e := Entry(Some(cr), hash)]
      ensures entries == utCrs == Live(pool) == Live(old(pool)) + {e} && checksum == Wrap(Total(mix, pool))
    {
      TotalUpdate(mix, pool, e, Entry(Some(cr), hash));
      WrapStep(Total(mix, pool), mix(hash, cr));
      pool := pool[e := Entry(Some(cr), hash)];
      entries := entries + {e};
      utCrs := utCrs + {e};
      checksum := Wrap(checksum + mix(hash, cr));
    }

    /** `flow_map_cache_get_entry`: a live entry stored under the hash, which is now the last to be
        reused; null just when there is none. */
    method GetEntry(hash: nat) returns (ce: Option<nat>)
      requires Valid()
      modifies this`lru, this`stamp, this`clock
      ensures Valid()
      ensures ce.None? <==> forall e | e in Live(pool) :: pool[e].hash != hash
      ensures ce.None? ==> lru == old(lru)
      ensures ce.Some? ==> ce.value in Live(pool) && pool[ce.value].hash == hash && lru == Touch(old(lru), ce.value)
    {
      var hits := set e | e in entries && e < |pool| && pool[e].hash == hash;
      if hits == {} {
        forall e | e in Live(pool) ensures pool[e].hash != hash { assert e !in hits; }
        return None;
      }
      var e :| e in hits;
      MoveToBack(e);
      return Some(e);
    }

    /** `flow_map_cache_flush` */
    method Flush()
      requires Valid()
      modifies this`pool, this`entries, this`utCrs, this`checksum
      ensures Valid() && |pool| == |old(pool)| && entries == {} && checksum == 0 && Live(pool) == {}
    {
      while entries != {}
        invariant entries == utCrs == Live(pool) && checksum == Wrap(Total(mix, pool)) && |pool| == |old(pool)|
        decreases |entries|
      {
        var e :| e in entries;
        ghost var was := entries;
        Free(e);
        assert entries == was - {e};
      }
      checksum := 0;
      NoneLive(mix, pool);
    }

    /** `flow_map_cache_hash` and `flow_map_cache_is_valid`: the entries, which others could have
        changed, agree in sum with the running checksum, as they do after the operations above. */
    method IsValid() returns (ok: bool)
      requires entries == Live(pool)
      ensures ok <==> checksum == Wrap(Total(mix, pool))
      ensures Valid() ==> ok
    {
      var hash: U64 := 0;
      for i := 0 to |pool|
        invariant hash == Wrap(Total(mix, pool[..i]))
      {
        assert pool[..i + 1][..i] == pool[..i];
        WrapStep(Total(mix, pool[..i]), Weight(mix, pool[i]));
        if i in entries {
          hash := Wrap(hash + mix(pool[i].hash, pool[i].cr.value));
        }
      }
      assert pool[..|pool|] == pool;
      ok := hash == checksum;
    }
  }

  lemma {:induction false} NoneLive(mix: EntryHash, pool: seq<Entry>)
    requires Live(pool) == {}
    ensures Total(mix, pool) == 0
  {
    if pool != [] {
      var rest, n := pool[..|pool| - 1], |pool| - 1;
      assert n !in Live(pool);
      forall e | 0 <= e < |rest| ensures rest[e].cr.None? { assert e !in Live(pool); }
      NoneLive(mix, rest);
    }
  }

  /** The head of the list was used before all others. */
  lemma OldestFirst(lru: seq<nat>, n: nat, stamp: nat -> nat)
    requires Permutation(lru, n) && InOrder(lru, stamp) && n > 0
    ensures |lru| == n && lru[0] < n && forall x | 0 <= x < n && x != lru[0] :: stamp(lru[0]) < stamp(x)
  {
    forall x | 0 <= x < n && x != lru[0] ensures stamp(lru[0]) < stamp(x) {
      Covers(lru, n, x);
      var k :| 0 <= k < |lru| && lru[k] == x;
      assert stamp(lru[0]) < stamp(lru[k]);
    }
  }

  lemma TouchIn(lru: seq<nat>, n: nat, e: nat, i: nat)
    requires Permutation(lru, n) && e < n && i < |Touch(lru, e)|
    ensures Touch(lru, e)[i] in lru
  {
    Covers(lru, n, e);
    var k :| 0 <= k < |lru| && lru[k] == e;
    WithoutAt(lru, e, k);
  }
}
