/** `eviction.c`: the eviction groups of every table of a bridge, kept and searched in place. */
module Eviction {
  import opened Sequences
  import opened Options
  import opened HeapSpec
  import opened HeapKeys
  import opened EvictionSpec
  import opened EvictionContent

  /** The parts of `struct oftable` that eviction uses. `fields` is `eviction_fields`, null when
      eviction is off; `nRules` is the count of the table's classifier. */
  datatype EvTable = EvTable(fields: Option<seq<nat>>, basis: nat, ix: Index, nRules: nat, maxFlows: U32)

  type U32 = x: nat | x < 0x1_0000_0000

  /** `eviction_group_hash_rule`, with the configured fields and basis */
  type GroupHash = (seq<nat>, nat, nat) -> nat

  function HashIn(hash: GroupHash, t: EvTable): nat -> nat
    requires t.fields.Some?
  {
    (r: nat) => hash(t.fields.value, t.basis, r)
  }

  /** The index of a table is in order, and holds rules of that table only. */
  ghost predicate TableGood(hash: GroupHash, home: nat -> nat, i: nat, t: EvTable) {
    && GroupsGood(t.ix)
    && (if t.fields.None? then t.ix == EMPTY else Good(t.ix, HashIn(hash, t)))
    && forall r | r in t.ix.groupOf :: home(r) == i
  }

  ghost predicate AllGood(tables: seq<EvTable>, hash: GroupHash, home: nat -> nat) {
    forall t | 0 <= t < |tables| :: TableGood(hash, home, t, tables[t])
  }

  /** `int max_flows = …`: an unsigned limit read into a signed variable. */
  function Signed(m: U32): int {
    if m < 0x8000_0000 then m else m - 0x1_0000_0000
  }

  /** How far the table is above its limit. */
  function Excess(t: EvTable): nat {
    if t.nRules > Signed(t.maxFlows) then t.nRules - Signed(t.maxFlows) else 0
  }

  /** How many rules of the table are chosen: as many as are over the limit, while there are
      evictable rules in groups. */
  function Quota(t: EvTable, evictable: set<nat>): nat {
    if t.fields.None? then 0
    else if Excess(t) <= |t.ix.groupOf.Keys * evictable| then Excess(t) else |t.ix.groupOf.Keys * evictable|
  }

  /** How many are chosen from the first `n` tables. */
  function Quotas(tables: seq<EvTable>, evictable: set<nat>, n: nat): nat
    requires n <= |tables|
  {
    if n == 0 then 0 else Quotas(tables, evictable, n - 1) + Quota(tables[n - 1], evictable)
  }

  /** How far the first `n` tables with eviction are above their limits, together. */
  function Excesses(tables: seq<EvTable>, n: nat): nat
    requires n <= |tables|
  {
    if n == 0 then 0 else Excesses(tables, n - 1) + if tables[n - 1].fields.Some? then Excess(tables[n - 1]) else 0
  }

  lemma {:induction false} QuotasGrow(tables: seq<EvTable>, evictable: set<nat>, m: nat, n: nat)
    requires m <= n <= |tables|
    ensures Quotas(tables, evictable, m) <= Quotas(tables, evictable, n)
    decreases n
  {
    if m < n { QuotasGrow(tables, evictable, m, n - 1); }
  }

  /** No more rules are chosen than are over the limit, if and only if the limit is below 2^31 or there
      is no evictable rule in a group. The groups hold rules of the table, and the table has fewer than
      2^31 rules. */
  lemma QuotaWithinLimitIff(t: EvTable, evictable: set<nat>)
    requires t.fields.Some? && t.nRules < 0x8000_0000 && |t.ix.groupOf| <= t.nRules
    ensures Quota(t, evictable) <= (if t.nRules > t.maxFlows then t.nRules - t.maxFlows else 0)
            <==> t.maxFlows < 0x8000_0000 || t.ix.groupOf.Keys !! evictable
  {
    if t.maxFlows >= 0x8000_0000 { UnlimitedMeansAll(t, evictable); }
    if t.ix.groupOf.Keys !! evictable { assert t.ix.groupOf.Keys * evictable == {}; }
  }

  /** With a limit below 2^31, just as many are chosen as are over it or are evictable in groups. */
  lemma QuotaExact(t: EvTable, evictable: set<nat>)
    requires t.fields.Some? && t.maxFlows < 0x8000_0000
    ensures var over, able := t.nRules - t.maxFlows, |t.ix.groupOf.Keys * evictable|;
            Quota(t, evictable) == (if over <= 0 then 0 else if over <= able then over else able)
    ensures Excess(t) == if t.nRules <= t.maxFlows then 0 else t.nRules - t.maxFlows
  {
  }

  /** A limit of 2^31 or more, such as the default `UINT_MAX`, reads as a negative one: then every
      evictable rule in a group is chosen. */
  lemma UnlimitedMeansAll(t: EvTable, evictable: set<nat>)
    requires t.fields.Some? && t.maxFlows >= 0x8000_0000 && |t.ix.groupOf| <= t.nRules
    ensures Quota(t, evictable) == |t.ix.groupOf.Keys * evictable|
  {
    SubsetSize(t.ix.groupOf.Keys * evictable, t.ix.groupOf.Keys);
    assert |t.ix.groupOf.Keys| == |t.ix.groupOf|;
  }

  /** A chosen rule, with what is needed to file it again. */
  datatype Pick = Pick(table: nat, rule: nat, groupPriority: nat, priority: nat)

  function RulesOf(picks: seq<Pick>): set<nat> {
    set i | 0 <= i < |picks| :: picks[i].rule
  }

  ghost predicate DistinctRules(picks: seq<Pick>) {
    forall i, j | 0 <= i < j < |picks| :: picks[i].rule != picks[j].rule
  }

  /** The tables are as they were but for the index, in which the rules in `missing` are not filed. */
  ghost predicate Lacks(was: seq<EvTable>, now: seq<EvTable>, missing: set<nat>) {
    && |now| == |was|
    && forall t | 0 <= t < |was| ::
         && GroupsGood(was[t].ix) && GroupsGood(now[t].ix) && now[t] == was[t].(ix := now[t].ix)
         && Content(now[t].ix) == Content(was[t].ix) - missing
  }

  /** What was noted of the chosen rules is what the index said of them. */
  ghost predicate Noted(was: seq<EvTable>, picks: seq<Pick>) {
    forall i | 0 <= i < |picks| :: PickNoted(was, picks[i])
  }

  ghost predicate PickNoted(was: seq<EvTable>, p: Pick) {
    && p.table < |was| && was[p.table].fields.Some? && GroupsGood(was[p.table].ix)
    && p.rule in was[p.table].ix.groupOf && Content(was[p.table].ix)[p.rule].priority == p.priority
  }

  class Bridge {
    var tables: seq<EvTable>
    /** The rules with their `evictable` flag set. */
    var evictable: set<nat>
    const hash: GroupHash
    /** The table of each rule. */
    const home: nat -> nat

    ghost predicate Valid()
      reads this
    {
      AllGood(tables, hash, home)
    }

    constructor (n: nat, maxFlows: U32, hash: GroupHash, home: nat -> nat)
      ensures Valid() && |tables| == n && evictable == {} && this.hash == hash && this.home == home
      ensures forall t | 0 <= t < n :: tables[t] == EvTable(None, 0, EMPTY, 0, maxFlows)
    {
      EmptyIsGood((r: nat) => 0);
      this.hash, this.home := hash, home;
      tables := seq(n, _ => EvTable(None, 0, EMPTY, 0, maxFlows));
      evictable := {};
    }

    /** Replaces the index of one table. */
    method Store(t: nat, ix: Index)
      requires Valid() && t < |tables| && TableGood(hash, home, t, tables[t].(ix := ix))
      modifies this`tables
      ensures Valid() && tables == old(tables)[t := old(tables)[t].(ix := ix)]
    {
      hide TableGood;
      tables := tables[t := tables[t].(ix := ix)];
    }

    /** `ecall_evg_add_rule` */
    method AddRule(t: nat, r: nat, groupPriority: nat, priority: nat)
      requires Valid() && t < |tables| && tables[t].fields.Some? && home(r) == t && r !in tables[t].ix.groupOf
      modifies this`tables
      ensures Valid() && |tables| == |old(tables)| && tables == old(tables)[t := old(tables)[t].(ix := tables[t].ix)]
      ensures Content(tables[t].ix) == Content(old(tables[t].ix))[r := Filing(HashIn(hash, tables[t])(r), priority)]
    {
      hide Good, GroupsGood, SizesGood, Content, Find, Join, Resize, Placed;
      var was := tables[t].ix;
      ghost var h := HashIn(hash, tables[t]);
      assert Good(was, h);
      var g := hash(tables[t].fields.value, tables[t].basis, r);
      GoodParts(was, h);
      PlacedSizes(was, g, r, groupPriority, priority);
      FindHas(was, g, groupPriority);
      var ix := Find(was, g, groupPriority);
      ix := Join(ix, g, r, priority);
      assert ix == Placed(was, g, r, groupPriority, priority) by { PlacedIs(was, g, r, groupPriority, priority); }
      var random: U16 := *;
      ix := Resize(ix, g, random);
      assert ix == Add(was, h, r, groupPriority, priority, random);
      AddContent(was, h, r, groupPriority, priority, random);
      GoodParts(ix, h);
      Store(t, ix);
    }

    /** `ecall_evg_remove_rule` */
    method RemoveFrom(t: nat, r: nat)
      requires Valid() && t < |tables| && tables[t].fields.Some?
      modifies this`tables
      ensures Valid() && |tables| == |old(tables)| && tables == old(tables)[t := old(tables)[t].(ix := tables[t].ix)]
      ensures Content(tables[t].ix) == Content(old(tables[t].ix)) - {r}
    {
      hide Good, GroupsGood, SizesGood, Content, Leave, Resize, Destroy;
      var was := tables[t].ix;
      ghost var h := HashIn(hash, tables[t]);
      assert Good(was, h);
      GoodParts(was, h);
      if r !in was.groupOf {
        assert r !in Content(was);
        assert tables == tables[t := tables[t].(ix := was)];
        return;
      }
      LeaveSizes(was, r);
      var g := was.groupOf[r];
      var ix := Leave(was, r);
      var random: U16 := *;
      if ix.groups[g] == [] {
        ix := Destroy(ix, g);
      } else {
        ix := Resize(ix, g, random);
      }
      assert ix == RemoveRule(was, h, r, random);
      RemoveContent(was, h, r, random);
      GoodParts(ix, h);
      assert Content(ix).Keys == Content(was).Keys - {r};
      Store(t, ix);
    }

    /** `ecall_choose_rule_to_evict`: null just when eviction is off or no rule in a group is
        evictable, and else the first evictable rule in heap order. */
    method Choose(t: nat) returns (victim: Option<nat>)
      requires Valid() && t < |tables|
      ensures victim.None? <==> tables[t].fields.None? || tables[t].ix.groupOf.Keys !! evictable
      ensures victim.Some? ==> FirstEvictable(tables[t].ix, evictable, victim.value)
      ensures victim.Some? && tables[t].ix.groupOf.Keys <= evictable ==> Worst(tables[t].ix, victim.value)
    {
      hide Worst, Ordered, KeysUnique, GroupsGood, SizesGood;
      if tables[t].fields.None? {
        return None;
      }
      var ix := tables[t].ix;
      GoodParts(ix, HashIn(hash, tables[t]));
      for i := 0 to |ix.bySize|
        invariant NoneIn(ix, evictable, i)
      {
        SizeKeyIsGroup(ix, i);
        var rules := ix.groups[ix.bySize[i].key];
        for j := 0 to |rules|
          invariant forall k | 0 <= k < j :: rules[k].key !in evictable
        {
          if rules[j].key in evictable {
            assert FirstAt(ix, evictable, i, j);
            VictimIsGrouped(ix, evictable, rules[j].key);
            if ix.groupOf.Keys <= evictable { ChosenIsWorst(ix, evictable, rules[j].key); }
            return Some(rules[j].key);
          }
        }
        assert NoEvictable(rules, evictable);
      }
      SearchedAll(ix, evictable);
      return None;
    }

    /** `ecall_choose_rule_to_evict_p`: the same choice without the rule being inserted, and the
        flags as they were. */
    method ChooseExcept(t: nat, replacer: nat) returns (victim: Option<nat>)
      requires Valid() && t < |tables|
      modifies this`evictable
      ensures evictable == old(evictable)
      ensures victim.None? <==> tables[t].fields.None? || tables[t].ix.groupOf.Keys !! evictable - {replacer}
      ensures victim.Some? ==> FirstEvictable(tables[t].ix, evictable - {replacer}, victim.value)
    {
      hide FirstEvictable, TableGood;
      var wasEvictable := replacer in evictable;
      evictable := evictable - {replacer};
      victim := Choose(t);
      ghost var searched := evictable;
      if wasEvictable {
        evictable := evictable + {replacer};
      }
      assert evictable - {replacer} == searched;
    }

    /** `sgx_evg_destroy`: pops the rules of the group one by one, which then have no group. */
    static method DestroyGroup(ix: Index, g: nat) returns (to: Index)
      requires GroupsGood(ix) && SizesGood(ix) && g in ix.groups
      ensures GroupsGood(to) && SizesGood(to) && to.groups == ix.groups - {g}
      ensures to.groupOf == map r | r in ix.groupOf && ix.groupOf[r] != g :: ix.groupOf[r]
    {
      hide Ordered, KeysUnique, HasKey, GroupsGood, SizesGood, Remove, Pos;
      var rules, groupOf := ix.groups[g], ix.groupOf;
      while rules != []
        invariant |rules| <= |ix.groups[g]| && rules == ix.groups[g][..|rules|]
        invariant groupOf == ix.groupOf - KeysOf(ix.groups[g][|rules|..])
      {
        ghost var h := ix.groups[g];
        var last := rules[|rules| - 1];
        KeysOfOneMore(h, |rules| - 1);
        rules := rules[..|rules| - 1];
        groupOf := groupOf - {last.key};
      }
      SizesIgnore(ix, g);
      DestroySizes(ix, g);
      to := Destroy(ix, g).(groupOf := groupOf);
      SizesSame(Destroy(ix, g), to);
      assert ix.groups[g][0..] == ix.groups[g];
      DestroyedGroups(ix, to, g);
    }

    /** `ecall_oftable_disable_eviction`: no group is left, and no rule is in one. */
    method Disable(t: nat)
      requires Valid() && t < |tables|
      modifies this`tables
      ensures Valid() && tables == old(tables)[t := old(tables)[t].(fields := None, ix := EMPTY)]
    {
      hide Ordered, KeysUnique, HasKey, GroupsGood, SizesGood;
      EmptyIsGood((r: nat) => 0);
      GoodParts(EMPTY, (r: nat) => 0);
      if tables[t].fields.Some? {
        var ix := tables[t].ix;
        GoodParts(ix, HashIn(hash, tables[t]));
        while ix.groups != map[]
          invariant GroupsGood(ix) && SizesGood(ix) && tables == old(tables)
          decreases |ix.groups|
        {
          var g :| g in ix.groups;
          ix := DestroyGroup(ix, g);
        }
        NoGroupsIsEmpty(ix);
        tables := tables[t := tables[t].(fields := None, ix := ix)];
      }
    }

    /** `ecall_oftable_enable_eviction`: starts afresh, with no group, unless the fields are the
        same already. */
    method Enable(t: nat, fields: seq<nat>, random: nat) returns (noChange: bool)
      requires Valid() && t < |tables|
      modifies this`tables
      ensures Valid()
      ensures noChange <==> old(tables[t].fields) == Some(fields)
      ensures noChange ==> tables == old(tables)
      ensures !noChange ==>
               tables == old(tables)[t := old(tables)[t].(fields := Some(fields), basis := random, ix := EMPTY)]
    {
      if tables[t].fields.Some? && |fields| == |tables[t].fields.value|
         && (fields == [] || fields == tables[t].fields.value)
      {
        return true;
      }
      Disable(t);
      EmptyIsGood((r: nat) => hash(fields, random, r));
      tables := tables[t := tables[t].(fields := Some(fields), basis := random, ix := EMPTY)];
      return false;
    }

    /** Notes a chosen rule in the arrays, at position `n`. */
    static method Note(b: Buffers, ruleHash: nat -> nat, n: nat, p: Pick, ghost picks: seq<Pick>)
      requires b.Apart() && Recorded(b, ruleHash, picks) && n == |picks| < b.Size()
      modifies b.skip, b.rules, b.hashes, b.tableIds, b.groupPriorities, b.rulePriorities
      ensures Recorded(b, ruleHash, picks + [p])
    {
      if n >= b.start {
        b.hashes[n - b.start] := ruleHash(p.rule);
        b.rules[n - b.start] := p.rule;
      } else {
        b.skip[n] := p.rule;
      }
      b.tableIds[n] := p.table;
      b.groupPriorities[n] := p.groupPriority;
      b.rulePriorities[n] := p.priority;
      forall i | 0 <= i < n ensures RecordedAt(b, ruleHash, i, picks[i]) { }
    }

    /** One turn of the inner loop of `ecall_ofproto_evict`: chooses a rule, notes it and removes it. */
    method PickOne(t: nat, b: Buffers, ruleHash: nat -> nat, n: nat, ghost was: seq<EvTable>, ghost picks: seq<Pick>)
      returns (found: bool, ghost p: Pick)
      requires Valid() && t < |tables| && tables[t].fields.Some? && b.Apart() && Recorded(b, ruleHash, picks)
      requires Lacks(was, tables, RulesOf(picks)) && Noted(was, picks) && DistinctRules(picks)
      requires |was| == |tables| && AtHome(was, home) && n == |picks|
      requires tables[t].ix.groupOf.Keys !! evictable || n < b.Size()
      modifies this`tables, b.skip, b.rules, b.hashes, b.tableIds, b.groupPriorities, b.rulePriorities
      ensures Valid() && |tables| == |was| && tables[t].fields.Some?
      ensures found <==> old(tables[t].ix.groupOf.Keys) * evictable != {}
      ensures !found ==> tables == old(tables) && Recorded(b, ruleHash, picks)
      ensures found ==>
               && p.table == t && p.rule in evictable && p.rule in old(tables[t].ix.groupOf)
               && Recorded(b, ruleHash, picks + [p])
      ensures found ==>
               Lacks(was, tables, RulesOf(picks + [p])) && Noted(was, picks + [p]) && DistinctRules(picks + [p])
      ensures found ==> RulesOf(picks + [p]) == RulesOf(picks) + {p.rule}
    {
      hide TableGood, Recorded, Noted, DistinctRules, Lacks, PickNoted, Content, GroupsGood, AtHome, RulesOf,
        FirstEvictable;
      LacksTable(was, tables, RulesOf(picks), t);
      p := Pick(0, 0, 0, 0);
      var victim := Choose(t);
      if victim.None? {
        return false, p;
      }
      var r := victim.value;
      TakeVictim(was, tables, hash, home, evictable, t, r, RulesOf(picks));
      var ix := tables[t].ix;
      var g := ix.groupOf[r];
      var pick := Pick(t, r, PriorityOf(ix.bySize, g), PriorityOf(ix.groups[g], r));
      Note(b, ruleHash, n, pick, picks);
      ghost var now := tables;
      RemoveFrom(t, r);
      GoodAt(tables, hash, home, t);
      LackMore(was, now, tables, home, t, r, RulesOf(picks));
      PickOneMore(was, picks, pick);
      return true, pick;
    }

    /** The inner loop of `ecall_ofproto_evict`: chooses and removes rules of one table until it is
        within its limit or has no evictable rule in a group. */
    method PickFrom(t: nat, b: Buffers, ruleHash: nat -> nat, start: nat, ghost was: seq<EvTable>,
        ghost before: seq<Pick>)
      returns (n: nat, ghost picks: seq<Pick>)
      requires Valid() && t < |tables| && tables[t].fields.Some? && b.Apart() && Recorded(b, ruleHash, before)
      requires Lacks(was, tables, RulesOf(before)) && Noted(was, before) && DistinctRules(before)
      requires |was| == |tables| && AtHome(was, home) && RulesOf(before) !! was[t].ix.groupOf.Keys
      requires start == |before| && start + Quota(was[t], evictable) <= b.Size()
      modifies this`tables, b.skip, b.rules, b.hashes, b.tableIds, b.groupPriorities, b.rulePriorities
      ensures Valid() && Recorded(b, ruleHash, picks)
      ensures Lacks(was, tables, RulesOf(picks)) && Noted(was, picks) && DistinctRules(picks)
      ensures n == |picks| == start + Quota(was[t], evictable) && picks[..start] == before
      ensures forall i | start <= i < n :: picks[i].table == t && picks[i].rule in evictable
    {
      hide Taking, Recorded, Quota, AllGood, AtHome, Lacks, Noted, DistinctRules, RulesOf;
      var count, maxFlows := tables[t].nRules, Signed(tables[t].maxFlows);
      n, picks := start, before;
      ghost var mine: set<nat> := {};
      TakingStarts(was, tables, t, evictable, before);
      while count > maxFlows
        invariant Valid() && |tables| == |was| && tables[t].fields.Some? && Recorded(b, ruleHash, picks)
        invariant Taking(was, tables, t, evictable, before, picks, mine)
        invariant n == |picks| && |mine| == n - start == was[t].nRules - count && (mine == {} || count >= maxFlows)
        decreases count - maxFlows
      {
        TakingParts(was, tables, t, evictable, before, picks, mine, count);
        ghost var now, p := tables, Pick(0, 0, 0, 0);
        var found: bool;
        found, p := PickOne(t, b, ruleHash, n, was, picks);
        if !found {
          AllTaken(was[t], evictable, RulesOf(before), mine, now[t].ix.groupOf.Keys);
          break;
        }
        TakingStep(was, now, tables, t, evictable, before, picks, mine, p);
        mine := mine + {p.rule};
        picks := picks + [p];
        count := count - 1;
        n := n + 1;
      }
      TakingEnds(was, tables, t, evictable, before, picks, mine, count);
    }

    /** The second loop of `ecall_ofproto_evict`: files every chosen rule again. */
    method AddBack(b: Buffers, ruleHash: nat -> nat, n: nat, ghost was: seq<EvTable>, ghost picks: seq<Pick>)
      requires Valid() && b.Apart() && Recorded(b, ruleHash, picks) && n == |picks|
      requires Lacks(was, tables, RulesOf(picks)) && Noted(was, picks) && DistinctRules(picks)
      requires AtHome(was, home) && AllGood(was, hash, home)
      modifies this`tables
      ensures Valid() && Lacks(was, tables, {})
    {
      hide TableGood, Noted, DistinctRules, Lacks, PickNoted, Content, GroupsGood, AtHome, RulesOf, AllGood;
      assert picks[0..] == picks;
      for i := 0 to n
        invariant Valid() && Lacks(was, tables, RulesOf(picks[i..]))
      {
        assert RecordedAt(b, ruleHash, i, picks[i]);
        var r := if i >= b.start then b.rules[i - b.start] else b.skip[i];
        var t := b.tableIds[i];
        PutBack(was, tables, hash, home, picks, i);
        ghost var now := tables;
        AddRule(t, r, b.groupPriorities[i], b.rulePriorities[i]);
        GoodAt(tables, hash, home, t);
        LackLess(was, now, tables, home, t, r, RulesOf(picks[i + 1..]));
      }
      assert RulesOf(picks[n..]) == {} by { RulesOfNone(picks, n); }
    }

    /** `ecall_ofproto_evict`, a dry run. The caller's buffers must have room for the rules that are
        chosen. `picks` are the chosen rules in order: the first `start` are skipped, the others go
        to the buffers. They are distinct, come from the tables in order and fill each table's quota.
        Afterwards every rule is filed as it was, and every flag and table is as before otherwise. */
    method Evict(nTables: nat, start: nat, hashes: array<nat>, rules: array<nat>, ruleHash: nat -> nat)
      returns (count: nat, nEvictions: nat, ghost picks: seq<Pick>)
      requires Valid() && nTables <= |tables| && hashes != rules && hashes.Length == rules.Length
      requires Quotas(tables, evictable, nTables) <= start + rules.Length
      modifies this`tables, hashes, rules
      ensures Valid() && Lacks(old(tables), tables, {})
      ensures |picks| == Quotas(old(tables), evictable, nTables) && DistinctRules(picks) && Noted(old(tables), picks)
      ensures forall i | 0 <= i < |picks| :: picks[i].rule in evictable
      ensures Segments(old(tables), evictable, nTables, picks)
      ensures forall i | start <= i < |picks| ::
               rules[i - start] == picks[i].rule && hashes[i - start] == ruleHash(picks[i].rule)
      ensures nEvictions == Excesses(old(tables), nTables)
      ensures count == (|picks| - start) % 0x1_0000_0000_0000_0000
    {
      hide TableGood, Noted, DistinctRules, Lacks, PickNoted, Content, GroupsGood, AtHome, RulesOf, AllGood, Quota,
        Excess, Quotas, Excesses, AllFrom;
      var n := 0;
      nEvictions := 0;
      var size := start + rules.Length;
      var skip := new nat[start];
      var tableIds, groupPriorities, rulePriorities := new nat[size], new nat[size], new nat[size];
      var b := Buffers(start, skip, rules, hashes, tableIds, groupPriorities, rulePriorities);
      ghost var was := tables;
      picks := [];
      StartOfRun(was, evictable, hash, home);
      for t := 0 to nTables
        invariant Valid() && b.Apart() && Recorded(b, ruleHash, picks)
        invariant Lacks(was, tables, RulesOf(picks)) && Noted(was, picks) && DistinctRules(picks)
        invariant n == |picks| == Quotas(was, evictable, t) && nEvictions == Excesses(was, t)
        invariant forall i | 0 <= i < n :: picks[i].rule in evictable && picks[i].table < t
        invariant Segments(was, evictable, t, picks)
      {
        LacksTable(was, tables, RulesOf(picks), t);
        SumStep(was, tables[t], evictable, t);
        if tables[t].fields.Some? {
          nEvictions := nEvictions + Excess(tables[t]);
          QuotasGrow(was, evictable, t + 1, nTables);
          OtherTables(was, home, picks, t);
          ghost var before := picks;
          n, picks := PickFrom(t, b, ruleHash, n, was, picks);
          SegmentsGrow(was, evictable, t, before, picks);
        } else {
          SegmentsGrow(was, evictable, t, picks, picks);
        }
      }
      AddBack(b, ruleHash, n, was, picks);
      forall i | start <= i < |picks|
        ensures rules[i - start] == picks[i].rule && hashes[i - start] == ruleHash(picks[i].rule)
      {
        assert RecordedAt(b, ruleHash, i, picks[i]);
      }
      count := (n - start) % 0x1_0000_0000_0000_0000;
    }
  }

  lemma PlacedIs(ix: Index, g: nat, r: nat, groupPriority: nat, priority: nat)
    requires g in Find(ix, g, groupPriority).groups
    ensures Placed(ix, g, r, groupPriority, priority) == Join(Find(ix, g, groupPriority), g, r, priority)
  {
  }

  lemma GoodParts(ix: Index, hash: nat -> nat)
    requires Good(ix, hash)
    ensures GroupsGood(ix) && SizesGood(ix)
    ensures forall r | r in ix.groupOf :: ix.groupOf[r] == hash(r) && Content(ix)[r].group == hash(r)
  {
  }

  /** The rule has the highest priority in its group, which is a largest one up to 65535 rules. */
  ghost predicate Worst(ix: Index, r: nat)
    requires GroupsGood(ix)
  {
    && r in ix.groupOf
    && forall q | q in ix.groupOf ::
         && (|HeapOf(ix, ix.groupOf[r])| >= |HeapOf(ix, ix.groupOf[q])| || |HeapOf(ix, ix.groupOf[r])| >= 65535)
         && (ix.groupOf[q] == ix.groupOf[r] ==> Content(ix)[q].priority <= Content(ix)[r].priority)
  }

  lemma ChosenIsWorst(ix: Index, evictable: set<nat>, r: nat)
    requires GroupsGood(ix) && SizesGood(ix) && FirstEvictable(ix, evictable, r) && ix.groupOf.Keys <= evictable
    ensures Worst(ix, r)
  {
    hide SizesGood, FirstEvictable, HeapOf;
    VictimIsGrouped(ix, evictable, r);
    forall q | q in ix.groupOf
      ensures |HeapOf(ix, ix.groupOf[r])| >= |HeapOf(ix, ix.groupOf[q])| || |HeapOf(ix, ix.groupOf[r])| >= 65535
      ensures ix.groupOf[q] == ix.groupOf[r] ==> Content(ix)[q].priority <= Content(ix)[r].priority
    {
      VictimIsWorst(ix, evictable, r, q);
    }
  }

  lemma SizeKeyIsGroup(ix: Index, i: nat)
    requires SizesGood(ix) && i < |ix.bySize|
    ensures ix.bySize[i].key in ix.groups
  {
  }

  function KeysOf(h: Nodes<nat>): set<nat> {
    set i | 0 <= i < |h| :: h[i].key
  }

  lemma KeysOfOneMore(h: Nodes<nat>, i: nat)
    requires i < |h|
    ensures KeysOf(h[i..]) == KeysOf(h[i + 1..]) + {h[i].key}
  {
  }

  lemma SizesIgnore(ix: Index, g: nat)
    requires SizesGood(ix)
    ensures SizesGoodBut(ix, Some(g))
  {
  }

  lemma DestroyedGroups(ix: Index, to: Index, g: nat)
    requires GroupsGood(ix) && g in ix.groups
    requires to.groups == ix.groups - {g} && to.groupOf == ix.groupOf - KeysOf(ix.groups[g])
    ensures GroupsGood(to)
    ensures to.groupOf == map r | r in ix.groupOf && ix.groupOf[r] != g :: ix.groupOf[r]
  {
    hide Ordered, KeysUnique, HasKey, KeysOf;
    GroupHasKeys(ix, g);
    forall j | j in to.groups ensures GroupGood(to.groupOf, j, to.groups[j]) {
      assert GroupGood(ix.groupOf, j, ix.groups[j]);
    }
  }

  lemma GroupHasKeys(ix: Index, g: nat)
    requires GroupsGood(ix) && g in ix.groups
    ensures forall r | r in ix.groupOf :: r in KeysOf(ix.groups[g]) <==> ix.groupOf[r] == g
  {
  }

  lemma SizesSame(ix: Index, to: Index)
    requires SizesGood(ix) && to.groups == ix.groups && to.bySize == ix.bySize
    ensures SizesGood(to)
  {
  }

  lemma NoGroupsIsEmpty(ix: Index)
    requires GroupsGood(ix) && SizesGood(ix) && ix.groups == map[]
    ensures ix == EMPTY
  {
    hide Ordered, KeysUnique;
    if |ix.bySize| > 0 { SizeKeyIsGroup(ix, 0); }
    assert ix.groupOf.Keys == {};
  }

  /** The arrays of one call: the skipped rules, the caller's two buffers, and what is noted of each
      rule. */
  datatype Buffers = Buffers(start: nat, skip: array<nat>, rules: array<nat>, hashes: array<nat>,
                             tableIds: array<nat>, groupPriorities: array<nat>, rulePriorities: array<nat>) {
    function Size(): nat { start + rules.Length }

    ghost predicate Apart() {
      && skip.Length == start && hashes.Length == rules.Length
      && tableIds.Length == Size() && groupPriorities.Length == Size() && rulePriorities.Length == Size()
      && skip != rules && skip != hashes && skip != tableIds && skip != groupPriorities && skip != rulePriorities
      && rules != hashes && rules != tableIds && rules != groupPriorities && rules != rulePriorities
      && hashes != tableIds && hashes != groupPriorities && hashes != rulePriorities
      && tableIds != groupPriorities && tableIds != rulePriorities && groupPriorities != rulePriorities
    }
  }

  ghost predicate RecordedAt(b: Buffers, ruleHash: nat -> nat, i: nat, p: Pick)
    requires b.Apart()
    reads b.skip, b.rules, b.hashes, b.tableIds, b.groupPriorities, b.rulePriorities
  {
    && i < b.Size() && b.tableIds[i] == p.table && b.groupPriorities[i] == p.groupPriority
    && b.rulePriorities[i] == p.priority
    && if i < b.start then b.skip[i] == p.rule
       else b.rules[i - b.start] == p.rule && b.hashes[i - b.start] == ruleHash(p.rule)
  }

  ghost predicate Recorded(b: Buffers, ruleHash: nat -> nat, picks: seq<Pick>)
    requires b.Apart()
    reads b.skip, b.rules, b.hashes, b.tableIds, b.groupPriorities, b.rulePriorities
  {
    forall i | 0 <= i < |picks| :: RecordedAt(b, ruleHash, i, picks[i])
  }

  /** Rules are filed in the table they belong to. */
  ghost predicate AtHome(tables: seq<EvTable>, home: nat -> nat) {
    forall t | 0 <= t < |tables| :: RulesAtHome(tables[t].ix.groupOf, home, t)
  }

  ghost predicate RulesAtHome(groupOf: map<nat, nat>, home: nat -> nat, t: nat) {
    forall r | r in groupOf :: home(r) == t
  }

  /** The rules chosen from a table stand together, and the tables follow each other. */
  ghost predicate Segments(was: seq<EvTable>, evictable: set<nat>, n: nat, picks: seq<Pick>)
    requires n <= |was|
  {
    forall u | 0 <= u < n :: AllFrom(picks, Quotas(was, evictable, u), Quotas(was, evictable, u + 1), u)
  }

  ghost predicate AllFrom(picks: seq<Pick>, from: nat, to: nat, t: nat) {
    from <= to <= |picks| && forall i | from <= i < to :: picks[i].table == t
  }

  lemma SegmentsGrow(was: seq<EvTable>, evictable: set<nat>, t: nat, before: seq<Pick>, picks: seq<Pick>)
    requires t < |was| && Segments(was, evictable, t, before) && |before| == Quotas(was, evictable, t)
    requires |picks| >= |before| && picks[..|before|] == before && |picks| == Quotas(was, evictable, t + 1)
    requires forall i | |before| <= i < |picks| :: picks[i].table == t
    ensures Segments(was, evictable, t + 1, picks)
  {
  }

  lemma StartOfRun(was: seq<EvTable>, evictable: set<nat>, hash: GroupHash, home: nat -> nat)
    requires AllGood(was, hash, home)
    ensures Quotas(was, evictable, 0) == 0 == Excesses(was, 0)
    ensures AtHome(was, home) && Lacks(was, was, RulesOf([])) && Noted(was, []) && DistinctRules([])
  {
    hide GroupsGood, Good, Content;
    forall t | 0 <= t < |was| ensures GroupsGood(was[t].ix) && Content(was[t].ix) == Content(was[t].ix) - RulesOf([]) {
      assert TableGood(hash, home, t, was[t]);
    }
    forall t | 0 <= t < |was| ensures RulesAtHome(was[t].ix.groupOf, home, t) {
      assert TableGood(hash, home, t, was[t]);
    }
  }

  /** While the limit is exceeded and there is an evictable rule in a group, the quota is not full. */
  lemma MoreRoom(t: EvTable, evictable: set<nat>, mine: set<nat>, left: set<nat>, count: int)
    requires t.fields.Some? && mine <= t.ix.groupOf.Keys && mine <= evictable
    requires |mine| == t.nRules - count && count > Signed(t.maxFlows)
    requires left <= t.ix.groupOf.Keys && left !! mine
    ensures left !! evictable || |mine| < Quota(t, evictable)
  {
    if r :| r in left && r in evictable {
      SubsetSize(mine + {r}, t.ix.groupOf.Keys * evictable);
    }
  }

  lemma AllTaken(t: EvTable, evictable: set<nat>, others: set<nat>, mine: set<nat>, left: set<nat>)
    requires left == t.ix.groupOf.Keys - (others + mine) && others !! t.ix.groupOf.Keys && left * evictable == {}
    requires mine <= t.ix.groupOf.Keys && mine <= evictable
    ensures mine == t.ix.groupOf.Keys * evictable
  {
    forall r | r in t.ix.groupOf.Keys * evictable ensures r in mine { assert r !in left * evictable; }
  }

  lemma QuotaReached(t: EvTable, evictable: set<nat>, mine: set<nat>, count: int)
    requires t.fields.Some? && mine <= t.ix.groupOf.Keys && mine <= evictable
    requires |mine| == t.nRules - count && (mine == {} || count >= Signed(t.maxFlows))
    requires count <= Signed(t.maxFlows) || mine == t.ix.groupOf.Keys * evictable
    ensures |mine| == Quota(t, evictable)
  {
    SubsetSize(mine, t.ix.groupOf.Keys * evictable);
  }

  /** The rules in `mine` have been chosen from table `t`, after those in `before`. */
  ghost predicate Taking(was: seq<EvTable>, now: seq<EvTable>, t: nat, evictable: set<nat>, before: seq<Pick>,
      picks: seq<Pick>, mine: set<nat>) {
    && t < |was| && Lacks(was, now, RulesOf(picks)) && Noted(was, picks) && DistinctRules(picks)
    && |before| <= |picks| && picks[..|before|] == before
    && (forall i | |before| <= i < |picks| :: picks[i].table == t && picks[i].rule in evictable)
    && RulesOf(picks) == RulesOf(before) + mine && RulesOf(before) !! was[t].ix.groupOf.Keys
    && mine <= was[t].ix.groupOf.Keys && mine <= evictable && was[t].fields.Some?
  }

  lemma TakingStarts(was: seq<EvTable>, now: seq<EvTable>, t: nat, evictable: set<nat>, before: seq<Pick>)
    requires t < |was| && Lacks(was, now, RulesOf(before)) && Noted(was, before) && DistinctRules(before)
    requires RulesOf(before) !! was[t].ix.groupOf.Keys && t < |now| && now[t].fields.Some?
    ensures Taking(was, now, t, evictable, before, before, {}) && now[t].nRules == was[t].nRules
    ensures now[t].maxFlows == was[t].maxFlows
  {
  }

  lemma TakingParts(was: seq<EvTable>, now: seq<EvTable>, t: nat, evictable: set<nat>, before: seq<Pick>,
      picks: seq<Pick>,
                    mine: set<nat>, count: int)
    requires Taking(was, now, t, evictable, before, picks, mine)
    requires |mine| == was[t].nRules - count && count > Signed(was[t].maxFlows)
    ensures Lacks(was, now, RulesOf(picks)) && Noted(was, picks) && DistinctRules(picks) && t < |was| == |now|
    ensures now[t].ix.groupOf.Keys == was[t].ix.groupOf.Keys - (RulesOf(before) + mine)
    ensures now[t].ix.groupOf.Keys !! evictable || |mine| < Quota(was[t], evictable)
    ensures mine <= was[t].ix.groupOf.Keys && mine <= evictable
  {
    hide Lacks, Noted, DistinctRules, RulesOf, Quota;
    LacksTable(was, now, RulesOf(picks), t);
    MoreRoom(was[t], evictable, mine, now[t].ix.groupOf.Keys, count);
  }

  lemma TakingStep(was: seq<EvTable>, now: seq<EvTable>, to: seq<EvTable>, t: nat, evictable: set<nat>,
      before: seq<Pick>, picks: seq<Pick>,
                   mine: set<nat>, p: Pick)
    requires Taking(was, now, t, evictable, before, picks, mine) && t < |now| && p.rule in now[t].ix.groupOf
    requires p.table == t && p.rule in evictable && RulesOf(picks + [p]) == RulesOf(picks) + {p.rule}
    requires Lacks(was, to, RulesOf(picks + [p])) && Noted(was, picks + [p]) && DistinctRules(picks + [p])
    ensures Taking(was, to, t, evictable, before, picks + [p], mine + {p.rule}) && p.rule !in mine
  {
    hide Lacks, Noted, DistinctRules, RulesOf;
    LacksTable(was, now, RulesOf(picks), t);
    assert (picks + [p])[..|before|] == picks[..|before|];
  }

  lemma TakingEnds(was: seq<EvTable>, now: seq<EvTable>, t: nat, evictable: set<nat>, before: seq<Pick>,
      picks: seq<Pick>,
                   mine: set<nat>, count: int)
    requires Taking(was, now, t, evictable, before, picks, mine)
    requires |mine| == was[t].nRules - count && (mine == {} || count >= Signed(was[t].maxFlows))
    requires count <= Signed(was[t].maxFlows) || mine == was[t].ix.groupOf.Keys * evictable
    ensures |mine| == Quota(was[t], evictable)
    ensures Lacks(was, now, RulesOf(picks)) && Noted(was, picks) && DistinctRules(picks)
    ensures |before| <= |picks| && picks[..|before|] == before
    ensures forall i | |before| <= i < |picks| :: picks[i].table == t && picks[i].rule in evictable
  {
    hide Lacks, Noted, DistinctRules, RulesOf, Quota;
    QuotaReached(was[t], evictable, mine, count);
  }

  lemma SumStep(was: seq<EvTable>, now: EvTable, evictable: set<nat>, t: nat)
    requires t < |was| && now == was[t].(ix := now.ix)
    ensures Quotas(was, evictable, t + 1) == Quotas(was, evictable, t) + Quota(was[t], evictable)
    ensures Excesses(was, t + 1) == Excesses(was, t) + if now.fields.Some? then Excess(now) else 0
    ensures now.fields.None? ==> Quota(was[t], evictable) == 0
  {
  }

  lemma LacksTable(was: seq<EvTable>, now: seq<EvTable>, missing: set<nat>, t: nat)
    requires Lacks(was, now, missing) && t < |was|
    ensures |now| == |was| && now[t] == was[t].(ix := now[t].ix)
    ensures now[t].ix.groupOf.Keys == was[t].ix.groupOf.Keys - missing
  {
  }

  /** The rules chosen from earlier tables are not in this one. */
  lemma OtherTables(was: seq<EvTable>, home: nat -> nat, picks: seq<Pick>, t: nat)
    requires Noted(was, picks) && AtHome(was, home) && t < |was|
    requires forall i | 0 <= i < |picks| :: picks[i].table < t
    ensures RulesOf(picks) !! was[t].ix.groupOf.Keys
  {
  }

  /** A victim has a group, and its filing now is its filing from the start. */
  lemma TakeVictim(was: seq<EvTable>, now: seq<EvTable>, hash: GroupHash, home: nat -> nat, evictable: set<nat>,
                   t: nat, r: nat, missing: set<nat>)
    requires Lacks(was, now, missing) && t < |was| && TableGood(hash, home, t, now[t]) && now[t].fields.Some?
    requires FirstEvictable(now[t].ix, evictable, r)
    ensures var ix := now[t].ix;
            && r in ix.groupOf && r in evictable && ix.groupOf[r] in ix.groups && HasKey(ix.groups[ix.groupOf[r]], r)
            && HasKey(ix.bySize, ix.groupOf[r])
            && forall gp :: PickNoted(was, Pick(t, r, gp, PriorityOf(ix.groups[ix.groupOf[r]], r)))
  {
    hide Ordered, KeysUnique, HasKey, FirstEvictable, GroupGood, PriorityOf;
    VictimIsGrouped(now[t].ix, evictable, r);
    GoodParts(now[t].ix, HashIn(hash, now[t]));
    assert Content(now[t].ix) == Content(was[t].ix) - missing;
    assert Content(now[t].ix)[r] == Content(was[t].ix)[r];
  }

  lemma LackMore(was: seq<EvTable>, now: seq<EvTable>, to: seq<EvTable>, home: nat -> nat, t: nat, r: nat,
      missing: set<nat>)
    requires Lacks(was, now, missing) && AtHome(was, home) && t < |was| && r in was[t].ix.groupOf
    requires |to| == |now| && to == now[t := now[t].(ix := to[t].ix)]
    requires GroupsGood(to[t].ix) && Content(to[t].ix) == Content(now[t].ix) - {r}
    ensures Lacks(was, to, missing + {r})
  {
    hide GroupsGood, Content;
    forall u | 0 <= u < |was|
      ensures GroupsGood(to[u].ix) && to[u] == was[u].(ix := to[u].ix)
      ensures Content(to[u].ix) == Content(was[u].ix) - (missing + {r})
    {
      assert RulesAtHome(was[u].ix.groupOf, home, u) && RulesAtHome(was[t].ix.groupOf, home, t);
      if u != t {
        assert r !in was[u].ix.groupOf;
        assert to[u] == now[u];
      }
    }
  }

  lemma LackLess(was: seq<EvTable>, now: seq<EvTable>, to: seq<EvTable>, home: nat -> nat, t: nat, r: nat,
      missing: set<nat>)
    requires Lacks(was, now, missing + {r}) && r !in missing && AtHome(was, home) && t < |was| && r in was[t].ix.groupOf
    requires |to| == |now| && to == now[t := now[t].(ix := to[t].ix)]
    requires GroupsGood(was[t].ix) && GroupsGood(to[t].ix)
    requires Content(to[t].ix) == Content(now[t].ix)[r := Content(was[t].ix)[r]]
    ensures Lacks(was, to, missing)
  {
    hide GroupsGood, Content;
    forall u | 0 <= u < |was|
      ensures GroupsGood(to[u].ix) && to[u] == was[u].(ix := to[u].ix)
      ensures Content(to[u].ix) == Content(was[u].ix) - missing
    {
      assert RulesAtHome(was[u].ix.groupOf, home, u) && RulesAtHome(was[t].ix.groupOf, home, t);
      if u != t {
        assert r !in was[u].ix.groupOf;
        assert to[u] == now[u];
      }
    }
  }

  lemma PickOneMore(was: seq<EvTable>, picks: seq<Pick>, p: Pick)
    requires Noted(was, picks) && DistinctRules(picks) && PickNoted(was, p) && p.rule !in RulesOf(picks)
    ensures Noted(was, picks + [p]) && DistinctRules(picks + [p]) && RulesOf(picks + [p]) == RulesOf(picks) + {p.rule}
  {
    hide PickNoted;
    var to := picks + [p];
    forall r | r in RulesOf(picks) + {p.rule} ensures r in RulesOf(to) {
      if r == p.rule {
        assert to[|picks|].rule == r;
      } else {
        var i :| 0 <= i < |picks| && picks[i].rule == r;
        assert to[i].rule == r;
      }
    }
  }

  /** The next chosen rule is in no group now, and its noted filing is its filing from the start. */
  lemma PutBack(was: seq<EvTable>, now: seq<EvTable>, hash: GroupHash, home: nat -> nat, picks: seq<Pick>, i: nat)
    requires i < |picks| && Lacks(was, now, RulesOf(picks[i..])) && Noted(was, picks) && DistinctRules(picks)
    requires AtHome(was, home) && AllGood(was, hash, home)
    ensures var p := picks[i];
            && p.table < |was| == |now| && now[p.table].fields.Some? && home(p.rule) == p.table
            && p.rule !in now[p.table].ix.groupOf && p.rule in was[p.table].ix.groupOf && GroupsGood(was[p.table].ix)
            && Content(was[p.table].ix)[p.rule] == Filing(HashIn(hash, now[p.table])(p.rule), p.priority)
            && RulesOf(picks[i..]) == RulesOf(picks[i + 1..]) + {p.rule} && p.rule !in RulesOf(picks[i + 1..])
  {
    hide GroupsGood, Content, Lacks, AllGood;
    var p := picks[i];
    assert PickNoted(was, p);
    assert RulesAtHome(was[p.table].ix.groupOf, home, p.table);
    RulesOfNext(picks, i);
    LacksTable(was, now, RulesOf(picks[i..]), p.table);
    assert TableGood(hash, home, p.table, was[p.table]) by { GoodAt(was, hash, home, p.table); }
    GoodParts(was[p.table].ix, HashIn(hash, was[p.table]));
    assert HashIn(hash, was[p.table])(p.rule) == HashIn(hash, now[p.table])(p.rule);
  }

  lemma GoodAt(tables: seq<EvTable>, hash: GroupHash, home: nat -> nat, t: nat)
    requires AllGood(tables, hash, home) && t < |tables|
    ensures TableGood(hash, home, t, tables[t]) && GroupsGood(tables[t].ix)
  {
  }

  lemma RulesOfNext(picks: seq<Pick>, i: nat)
    requires i < |picks| && DistinctRules(picks)
    ensures RulesOf(picks[i..]) == RulesOf(picks[i + 1..]) + {picks[i].rule}
    ensures picks[i].rule !in RulesOf(picks[i + 1..])
  {
  }

  lemma RulesOfNone(picks: seq<Pick>, n: nat)
    requires n == |picks|
    ensures RulesOf(picks[n..]) == {}
  {
  }

  /** After a dry run every rule has its group and priority again, and every group its size. */
  lemma DryRunRestores(was: seq<EvTable>, now: seq<EvTable>, t: nat, g: nat)
    requires Lacks(was, now, {}) && t < |was|
    ensures |now| == |was| && now[t] == was[t].(ix := now[t].ix)
    ensures GroupsGood(was[t].ix) && GroupsGood(now[t].ix) && Content(now[t].ix) == Content(was[t].ix)
    ensures now[t].ix.groupOf == was[t].ix.groupOf
    ensures (g in now[t].ix.groups <==> g in was[t].ix.groups) && |HeapOf(now[t].ix, g)| == |HeapOf(was[t].ix, g)|
  {
    hide GroupsGood, HeapOf;
    assert Content(now[t].ix) == Content(was[t].ix);
    ContentFixesGroups(now[t].ix, was[t].ix, g);
    forall r | r in was[t].ix.groupOf ensures r in now[t].ix.groupOf && now[t].ix.groupOf[r] == was[t].ix.groupOf[r] {
      assert Content(now[t].ix)[r] == Content(was[t].ix)[r];
    }
  }
}
