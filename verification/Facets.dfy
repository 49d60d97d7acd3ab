/** Facets, subfacets and rule counters of `ofproto-dpif.c`, updated in place. The run-time assertions
    of the code are `assert` statements here. */
module Facets {
  import opened Options
  import opened FacetCounters

  datatype RuleStats = RuleStats(packets: nat, bytes: nat, used: nat, created: nat)

  /** What `facet_revalidate` finds: the facet must go, or stays with these actions and this rule. */
  datatype Verdict = Gone | Stays(actionsChanged: bool, rule: nat)

  function PacketsOf(r: RuleStats): int {
    r.packets
  }

  function Amount(n: nat): int {
    n
  }

  ghost function HeldBy(o: Option<Facet>): int {
    if o.None? then 0 else Held(o.value)
  }

  ghost predicate EntryOk(o: Option<Facet>, nRules: nat) {
    o.Some? ==> FacetOk(o.value) && o.value.rule < nRules
  }

  ghost predicate EntryWithin(o: Option<Facet>) {
    o.Some? ==> Within(o.value)
  }

  class Ofproto {
    /** A facet keeps its place; a removed facet leaves `None`. */
    var facets: seq<Option<Facet>>
    /** A deleted rule keeps its final counters. */
    var rules: seq<RuleStats>
    /** Packets that came: seen by the datapath on the fast path, or sent up to be handled. */
    ghost var arrived: int
    /** Packets dropped from the books. */
    ghost var discarded: nat
    /** What the datapath reported of each slow-path flow removed by `subfacet_uninstall`. */
    ghost var slowReports: seq<nat>
    /** No datapath operation has failed, and every figure reported was between the last reading and
        the datapath's own counter. */
    ghost var fair: bool

    ghost predicate Valid()
      reads this
    {
      && (forall i | 0 <= i < |facets| :: EntryOk(facets[i], |rules|))
      && (fair ==> (forall i | 0 <= i < |facets| :: EntryWithin(facets[i])) && Balanced())
    }

    /** Every packet that came was credited to a rule, is held by a facet or was dropped; those
        reported of removed slow-path flows were counted once more. */
    ghost predicate Balanced()
      reads this
    {
      Sum(PacketsOf, rules) + Sum(HeldBy, facets) + discarded == arrived + Sum(Amount, slowReports)
    }

    /** Every facet has a subfacet, as is so between operations. */
    ghost predicate Settled()
      reads this
    {
      forall i | 0 <= i < |facets| && facets[i].Some? :: facets[i].value.subfacets != []
    }

    constructor ()
      ensures Valid() && Settled() && facets == [] && rules == []
      ensures arrived == 0 && discarded == 0 && slowReports == [] && fair
    {
      facets, rules, arrived, discarded, slowReports, fair := [], [], 0, 0, [], true;
    }

    /** Stores a facet that has changed: `ok` says that the datapath was fair, `lost` how many packets
        are dropped. */
    method Save(i: nat, g: Facet, ghost ok: bool, ghost lost: int)
      requires Valid() && i < |facets| && facets[i].Some? && FacetOk(g) && g.rule < |rules|
      requires fair && ok ==> Within(g) && lost >= 0 && Held(g) + lost == Held(facets[i].value)
      modifies this`facets, this`discarded, this`fair
      ensures Valid() && facets == old(facets)[i := Some(g)] && (fair <==> old(fair) && ok)
      ensures discarded == if fair then old(discarded) + lost else old(discarded)
    {
      hide FacetOk, Within, Held;
      SumUpdate(HeldBy, facets, i, Some(g));
      facets := facets[i := Some(g)];
      fair := fair && ok;
      if fair {
        discarded := discarded + lost;
      }
    }

    /** `rule_credit_stats`, from the packets the facet holds. */
    method Credit(i: nat, g: Facet, stats: Stats)
      requires Valid() && i < |facets| && facets[i].Some? && FacetOk(g) && g.rule < |rules|
      requires g.subfacets == facets[i].value.subfacets && Held(g) + stats.packets == Held(facets[i].value)
      modifies this`facets, this`rules
      ensures Valid() && facets == old(facets)[i := Some(g)]
      ensures rules == old(rules)[g.rule := Credited(old(rules)[g.rule], stats)]
    {
      hide FacetOk, Held;
      SumUpdate(HeldBy, facets, i, Some(g));
      SumUpdate(PacketsOf, rules, g.rule, Credited(rules[g.rule], stats));
      assert EntryWithin(facets[i]) ==> EntryWithin(Some(g));
      facets := facets[i := Some(g)];
      rules := rules[g.rule := Credited(rules[g.rule], stats)];
    }

    /** `facet_push_stats`: afterwards nothing is unpushed, and the facet's rule has been credited with
        just what was. */
    method PushStats(i: nat, mayLearn: bool)
      requires Valid() && i < |facets| && facets[i].Some?
      modifies this`facets, this`rules
      ensures Valid() && facets == old(facets)[i := Some(Pushed(old(facets)[i].value, mayLearn))]
      ensures |rules| == |old(rules)|
      ensures Pushed(old(facets)[i].value, mayLearn).prevPackets == old(facets)[i].value.packets
      ensures CreditedOnly(old(rules), rules, old(facets)[i].value.rule)
      ensures var f := old(facets)[i].value;
              rules[f.rule].packets == old(rules)[f.rule].packets + f.packets - f.prevPackets
      ensures var f, g := old(facets)[i].value, facets[i].value;
              if mayLearn || f.packets > f.prevPackets || f.used > f.prevUsed
              then && rules[f.rule].bytes == old(rules)[f.rule].bytes + f.bytes - f.prevBytes
                   && IsMax(rules[f.rule].used, old(rules)[f.rule].used, f.used)
                   && g.prevPackets == f.packets && g.prevBytes == f.bytes && g.prevUsed == f.used
                   && g == f.(prevPackets := g.prevPackets, prevBytes := g.prevBytes, prevUsed := g.prevUsed)
              else g == f && rules == old(rules)
    {
      var f := facets[i].value;
      assert EntryOk(facets[i], |rules|);
      assert f.packets >= f.prevPackets;
      assert f.bytes >= f.prevBytes;
      assert f.used >= f.prevUsed;
      var stats := Stats(f.packets - f.prevPackets, f.bytes - f.prevBytes, f.used);
      if mayLearn || stats.packets > 0 || f.used > f.prevUsed {
        var g := f.(prevPackets := f.packets, prevBytes := f.bytes, prevUsed := f.used);
        Credit(i, g, stats);
      } else {
        assert facets == facets[i := Some(f)];
      }
    }

    /** `facet_flush_stats`: the readings of all subfacets must have been cleared. */
    method FlushStats(i: nat)
      requires Valid() && i < |facets| && facets[i].Some? && Drained(facets[i].value)
      modifies this`facets, this`rules, this`discarded, this`fair
      ensures Valid() && facets == old(facets)[i := Some(Flushed(old(facets)[i].value))]
      ensures fair == old(fair) && discarded == old(discarded)
      ensures CreditedOnly(old(rules), rules, old(facets)[i].value.rule)
      ensures var f := old(facets)[i].value;
              rules[f.rule].packets == old(rules)[f.rule].packets + f.packets - f.prevPackets
      ensures var f, g := old(facets)[i].value, facets[i].value;
              && g.packets == g.bytes == g.prevPackets == g.prevBytes == g.accounted == 0 && g.prevUsed == f.used
              && g.rule == f.rule && g.slow == f.slow && g.subfacets == f.subfacets && g.used == f.used
      ensures var f := old(facets)[i].value;
              if f.packets > f.prevPackets || f.used > f.prevUsed
              then && rules[f.rule].bytes == old(rules)[f.rule].bytes + f.bytes - f.prevBytes
                   && IsMax(rules[f.rule].used, old(rules)[f.rule].used, f.used)
              else rules == old(rules)
    {
      var f := facets[i].value;
      for j := 0 to |f.subfacets| {
        assert f.subfacets[j].dpBytes == 0;
        assert f.subfacets[j].dpPackets == 0;
      }
      assert EntryOk(facets[i], |rules|) && (fair ==> EntryWithin(facets[i]));
      PushStats(i, false);
      var g := facets[i].value;
      if g.accounted < g.bytes {
        g := g.(accounted := g.bytes);
      }
      g := g.(packets := 0, bytes := 0, prevPackets := 0, prevBytes := 0, accounted := 0);
      Save(i, g, true, 0);
    }

    /** Uninstalls one subfacet. */
    method UninstallAt(i: nat, j: nat, reply: Reply)
      requires Valid() && i < |facets| && facets[i].Some? && j < |facets[i].value.subfacets|
      modifies this`facets, this`discarded, this`fair, this`slowReports
      ensures Valid() && facets == old(facets)[i := Some(Uninstall(old(facets)[i].value, j, reply))]
      ensures fair <==> old(fair) && FairOrGone(old(facets)[i].value.subfacets[j], reply)
      ensures Exact(old(facets)[i].value.subfacets[j], reply) ==> discarded == old(discarded)
      ensures slowReports == old(slowReports) + if fair then Report(old(facets)[i].value.subfacets[j], reply) else []
    {
      hide FacetOk, Held, Uninstall, Within, Sum, FairOrGone, Lost, Report, Exact, SubWithin;
      var f := facets[i].value;
      ghost var sf := f.subfacets[j];
      assert EntryOk(facets[i], |rules|) && (fair ==> EntryWithin(facets[i]));
      UninstallOk(f, j, reply);
      var g := Uninstall(f, j, reply);
      SumUpdate(HeldBy, facets, i, Some(g));
      if fair { StillWithin(f, g, j); }
      facets := facets[i := Some(g)];
      fair := fair && FairOrGone(sf, reply);
      if fair {
        LostBounds(sf, reply);
        ReportSum(slowReports, sf, reply);
        discarded := discarded + Lost(sf, reply);
        slowReports := slowReports + Report(sf, reply);
      }
    }

    /** `facet_remove` */
    method RemoveFacet(i: nat, replies: seq<Reply>)
      requires Valid() && i < |facets| && facets[i].Some? && facets[i].value.subfacets != []
      requires |replies| == |facets[i].value.subfacets|
      modifies this`facets, this`rules, this`discarded, this`fair, this`slowReports
      ensures Valid() && facets == old(facets)[i := None] && CreditedOnly(old(rules), rules, old(facets)[i].value.rule)
      ensures AllExact(old(facets)[i].value, replies) ==> discarded == old(discarded)
      ensures old(fair) && AllFair(old(facets)[i].value, replies) <==> fair
      ensures fair ==> slowReports == old(slowReports) + Reports(old(facets)[i].value, replies, |replies|)
      ensures var f := old(facets)[i].value;
              fair && AllExact(f, replies) ==>
                rules[f.rule].packets
                == old(rules)[f.rule].packets + Held(f) + Sum(Amount, Reports(f, replies, |replies|))
    {
      hide FacetOk, Held, Within, Uninstall, Uninstalled, AllExact, AllFair, Reports, Sum;
      assert facets[i].value.subfacets != [];
      UninstallAll(i, replies);
      IsDrained(facets[i].value);
      FlushStats(i);
      DestroyAll(i);
      SumUpdate(HeldBy, facets, i, None);
      NothingHeld(facets[i].value);
      facets := facets[i := None];
    }

    /** The first loop of `facet_remove`. */
    method UninstallAll(i: nat, replies: seq<Reply>)
      requires Valid() && i < |facets| && facets[i].Some? && |replies| == |facets[i].value.subfacets|
      modifies this`facets, this`discarded, this`fair, this`slowReports
      ensures Valid() && |facets| == |old(facets)| && facets[i].Some? && facets == old(facets)[i := facets[i]]
      ensures facets[i].value.rule == old(facets)[i].value.rule
      ensures Uninstalled(facets[i].value, |facets[i].value.subfacets|)
      ensures AllExact(old(facets)[i].value, replies) ==> discarded == old(discarded)
      ensures old(fair) && AllFair(old(facets)[i].value, replies) <==> fair
      ensures fair ==> slowReports == old(slowReports) + Reports(old(facets)[i].value, replies, |replies|)
      ensures var f, g := old(facets)[i].value, facets[i].value;
              fair && AllExact(f, replies) ==>
                g.packets - g.prevPackets == Held(f) + Sum(Amount, Reports(f, replies, |replies|))
    {
      hide FacetOk, Held, Within, Uninstall, Fair, EntryWithin, Sum, Lost, Report, Again;
      SumZero(Amount, []);
      for j := 0 to |replies|
        invariant Valid() && |facets| == |old(facets)| && facets[i].Some? && |facets[i].value.subfacets| == |replies|
        invariant facets == old(facets)[i := facets[i]] && facets[i].value.rule == old(facets)[i].value.rule
        invariant Uninstalled(facets[i].value, j)
        invariant forall k | j <= k < |replies| :: facets[i].value.subfacets[k] == old(facets)[i].value.subfacets[k]
        invariant fair <==> old(fair) && FairTo(old(facets)[i].value, replies, j)
        invariant ExactTo(old(facets)[i].value, replies, j) ==> discarded == old(discarded)
        invariant fair ==> slowReports == old(slowReports) + Reports(old(facets)[i].value, replies, j)
        invariant fair && ExactTo(old(facets)[i].value, replies, j) ==>
          Held(facets[i].value) == Held(old(facets)[i].value) + Sum(Amount, Reports(old(facets)[i].value, replies, j))
      {
        ghost var f := facets[i].value;
        assert EntryOk(facets[i], |rules|);
        UninstallOk(f, j, replies[j]);
        if FairOrGone(f.subfacets[j], replies[j]) { LostBounds(f.subfacets[j], replies[j]); }
        ReportSum(Reports(old(facets)[i].value, replies, j), f.subfacets[j], replies[j]);
        UninstallAt(i, j, replies[j]);
        UninstalledNext(f, facets[i].value, j);
      }
      HeldIsUnpushed(facets[i].value);
    }

    /** The second loop of `facet_remove`, over subfacets that are not installed any more. */
    method DestroyAll(i: nat)
      requires Valid() && i < |facets| && facets[i].Some? && Uninstalled(facets[i].value, |facets[i].value.subfacets|)
      requires facets[i].value.packets == facets[i].value.prevPackets
      modifies this`facets, this`discarded, this`fair, this`slowReports
      ensures discarded == old(discarded) && fair == old(fair) && slowReports == old(slowReports)
      ensures Valid() && |facets| == |old(facets)| && facets[i].Some? && facets == old(facets)[i := facets[i]]
      ensures facets[i].value.subfacets == [] && facets[i].value.packets == facets[i].value.prevPackets
    {
      hide FacetOk, Held, Within, Uninstall;
      while facets[i].value.subfacets != []
        invariant Valid() && |facets| == |old(facets)| && facets[i].Some? && facets == old(facets)[i := facets[i]]
        invariant Uninstalled(facets[i].value, |facets[i].value.subfacets|)
        invariant facets[i].value.packets == facets[i].value.prevPackets
        invariant discarded == old(discarded) && fair == old(fair) && slowReports == old(slowReports)
        decreases |facets[i].value.subfacets|
      {
        var reply := Reply(false, Stats(0, 0, 0));
        assert EntryOk(facets[i], |rules|);
        UninstallOk(facets[i].value, 0, reply);
        DestroyAt(i, 0, reply);
      }
    }

    /** `subfacet_destroy__` */
    method DestroyAt(i: nat, j: nat, reply: Reply)
      requires Valid() && i < |facets| && facets[i].Some? && j < |facets[i].value.subfacets|
      modifies this`facets, this`discarded, this`fair, this`slowReports
      ensures Exact(old(facets)[i].value.subfacets[j], reply) ==> discarded == old(discarded)
      ensures fair <==> old(fair) && FairOrGone(old(facets)[i].value.subfacets[j], reply)
      ensures slowReports == old(slowReports) + if fair then Report(old(facets)[i].value.subfacets[j], reply) else []
      ensures Valid() && facets == old(facets)[i := Some(Dropped(Uninstall(old(facets)[i].value, j, reply), j))]
    {
      hide FacetOk, Held, Within, Uninstall;
      assert EntryOk(facets[i], |rules|);
      UninstallOk(facets[i].value, j, reply);
      UninstallAt(i, j, reply);
      var f := facets[i].value;
      assert EntryOk(facets[i], |rules|) && (fair ==> EntryWithin(facets[i]));
      DropOk(f, j);
      Save(i, f.(subfacets := f.subfacets[..j] + f.subfacets[j + 1..]), true, 0);
    }

    /** `subfacet_destroy`: takes the facet with its last subfacet. */
    method DestroySubfacet(i: nat, j: nat, reply: Reply)
      requires Valid() && Settled() && i < |facets| && facets[i].Some? && j < |facets[i].value.subfacets|
      modifies this`facets, this`rules, this`discarded, this`fair, this`slowReports
      ensures Valid() && Settled() && |facets| == |old(facets)|
      ensures facets == old(facets)[i := facets[i]] && CreditedOnly(old(rules), rules, old(facets)[i].value.rule)
      ensures facets[i].None? <==> |old(facets)[i].value.subfacets| == 1
      ensures fair <==> old(fair) && FairOrGone(old(facets)[i].value.subfacets[j], reply)
      ensures Exact(old(facets)[i].value.subfacets[j], reply) ==> discarded == old(discarded)
      ensures fair ==> slowReports == old(slowReports) + Report(old(facets)[i].value.subfacets[j], reply)
      ensures forall k | 0 <= k < |facets| && k != i :: facets[k] == old(facets)[k]
      ensures |old(facets)[i].value.subfacets| > 1 ==>
                facets[i] == Some(Dropped(Uninstall(old(facets)[i].value, j, reply), j))
    {
      if |facets[i].value.subfacets| == 1 {
        RemoveFacet(i, [reply]);
      } else {
        assert EntryOk(facets[i], |rules|);
        UninstallOk(facets[i].value, j, reply);
        DestroyAt(i, j, reply);
      }
    }

    /** `subfacet_destroy_batch`: the flows of all subfacets of the batch are deleted first; the
        statistics returned are dropped, and with them every packet not read before. The batch names
        each subfacet by its facet and its place there. */
    method DestroyBatch(batch: seq<Place>)
      requires Valid() && Settled() && BatchOk(facets, batch)
      modifies this`facets, this`rules, this`discarded, this`fair, this`slowReports
      ensures Valid() && Settled() && |facets| == |old(facets)| && |rules| == |old(rules)|
      ensures fair == old(fair) && (fair ==> slowReports == old(slowReports))
      ensures fair ==> discarded == old(discarded) + UnreadIn(old(facets), batch)
      ensures forall i | 0 <= i < |facets| :: Count(facets[i]) == Count(old(facets)[i]) - Members(batch, i)
    {
      hide FacetOk, Held, Within, BatchOk, UnreadIn;
      DeleteFlows(batch);
      var rest := batch;
      while rest != []
        invariant Valid() && Settled() && |facets| == |old(facets)| && |rules| == |old(rules)| && BatchOk(facets, rest)
        invariant fair == old(fair) && (fair ==> slowReports == old(slowReports) && Deleted(facets, rest))
        invariant fair ==> discarded == old(discarded) + UnreadIn(old(facets), batch)
        invariant forall i | 0 <= i < |facets| ::
          Count(facets[i]) - Members(rest, i) == Count(old(facets)[i]) - Members(batch, i)
        decreases |rest|
      {
        var p := rest[0];
        ghost var was := facets;
        BatchHead(was, rest);
        DestroyDeleted(p.facet, p.at);
        BatchShifts(was, facets, rest);
        rest := Shifted(rest[1..], p);
      }
    }

    /** The deletion of the flows of a batch by `dpif_operate`. */
    method DeleteFlows(batch: seq<Place>)
      requires Valid() && Settled() && BatchOk(facets, batch)
      modifies this`facets, this`discarded, this`fair
      ensures Valid() && Settled() && |facets| == |old(facets)| && BatchOk(facets, batch) && fair == old(fair)
      ensures fair ==> Deleted(facets, batch) && discarded == old(discarded) + UnreadIn(old(facets), batch)
      ensures forall i | 0 <= i < |facets| :: Count(facets[i]) == Count(old(facets)[i])
    {
      hide FacetOk, Held, Within;
      for k := 0 to |batch|
        invariant Valid() && Settled() && |facets| == |old(facets)| && BatchOk(facets, batch) && fair == old(fair)
        invariant fair ==>
                   Deleted(facets, batch[..k]) && discarded == old(discarded) + UnreadIn(old(facets), batch[..k])
        invariant forall i | 0 <= i < |facets| :: Count(facets[i]) == Count(old(facets)[i])
        invariant forall m | k <= m < |batch| :: SubAtPlace(facets, batch[m]) == SubAtPlace(old(facets), batch[m])
      {
        var p := batch[k];
        ghost var was := facets;
        var f := facets[p.facet].value;
        assert EntryOk(facets[p.facet], |rules|) && (fair ==> EntryWithin(facets[p.facet]));
        FlowGoneOk(f, p.at);
        Save(p.facet, FlowGone(f, p.at), true, Unread(f.subfacets[p.at]));
        assert batch[..k + 1] == batch[..k] + [p];
        FlowGoneFrame(was, facets, batch, k);
      }
      assert batch[..|batch|] == batch;
    }

    /** One turn of the second loop: the readings are cleared and the subfacet destroyed. */
    method DestroyDeleted(i: nat, j: nat)
      requires Valid() && Settled() && i < |facets| && facets[i].Some? && j < |facets[i].value.subfacets|
      requires fair ==> Unread(facets[i].value.subfacets[j]) == 0
      modifies this`facets, this`rules, this`discarded, this`fair, this`slowReports
      ensures Valid() && Settled() && |facets| == |old(facets)| && |rules| == |old(rules)|
      ensures fair == old(fair) && discarded == old(discarded) && (fair ==> slowReports == old(slowReports))
      ensures forall k | 0 <= k < |facets| && k != i :: facets[k] == old(facets)[k]
      ensures |old(facets)[i].value.subfacets| == 1 ==> facets[i] == None
      ensures |old(facets)[i].value.subfacets| > 1 ==>
                && facets[i].Some?
                && facets[i].value.subfacets == Dropped(old(facets)[i].value, j).subfacets
    {
      hide FacetOk, Held, Within;
      var f := facets[i].value;
      assert EntryOk(facets[i], |rules|) && (fair ==> EntryWithin(facets[i]));
      ClearedOk(f, j);
      var g := WithPath(Cleared(f, j), j, NotInstalled);
      WithPathOk(Cleared(f, j), j, NotInstalled);
      ClearedWithin(f, g, j);
      Save(i, g, true, 0);
      DestroySubfacet(i, j, Reply(false, Stats(0, 0, 0)));
    }

    /** The loop that puts every fast-path flow anew, with its counters zeroed. */
    method ReinstallFast(i: nat, replies: seq<Reply>)
      requires Valid() && i < |facets| && facets[i].Some? && |replies| == |facets[i].value.subfacets|
      modifies this`facets, this`discarded, this`fair
      ensures Valid() && |facets| == |old(facets)| && facets[i].Some? && facets == old(facets)[i := facets[i]]
      ensures Alike(old(facets)[i].value, facets[i].value) && Drained(facets[i].value)
      ensures AllExact(old(facets)[i].value, replies) ==> discarded == old(discarded)
      ensures var f, g := old(facets)[i].value, facets[i].value;
              fair && AllExact(f, replies) ==> g.packets - g.prevPackets == Held(f)
    {
      hide FacetOk, Held, Within, Reinstall, Fair;
      for j := 0 to |replies|
        invariant Valid() && |facets| == |old(facets)| && facets[i].Some? && facets == old(facets)[i := facets[i]]
        invariant Alike(old(facets)[i].value, facets[i].value) && DrainedTo(facets[i].value, j)
        invariant forall k | j <= k < |replies| :: facets[i].value.subfacets[k] == old(facets)[i].value.subfacets[k]
        invariant ExactTo(old(facets)[i].value, replies, j) ==> discarded == old(discarded)
        invariant fair && ExactTo(old(facets)[i].value, replies, j) ==>
                    Held(facets[i].value) == Held(old(facets)[i].value)
        invariant forall k | 0 <= k < j :: Unread(facets[i].value.subfacets[k]) == 0
      {
        var f := facets[i].value;
        assert EntryOk(facets[i], |rules|) && (fair ==> EntryWithin(facets[i]));
        SubIn(f, j);
        if f.subfacets[j].path == FastPath {
          var sf := f.subfacets[j];
          ReinstallOk(f, j, replies[j]);
          var g := Reinstall(f, j, replies[j]);
          if fair { StillWithin(f, g, j); }
          if fair && Fair(sf, replies[j]) { ReportedBounds(sf, replies[j]); }
          Save(i, g, Fair(sf, replies[j]), Unreported(sf, replies[j]));
          DrainedNext(f, g, j);
        }
      }
      HeldIsUnpushed(facets[i].value);
    }

    /** `send_active_timeout`, when the timeout has expired */
    method ActiveTimeout(i: nat, replies: seq<Reply>)
      requires Valid() && Settled() && i < |facets| && facets[i].Some? && |replies| == |facets[i].value.subfacets|
      modifies this`facets, this`discarded, this`fair
      ensures Valid() && Settled() && |facets| == |old(facets)| && facets == old(facets)[i := facets[i]]
      ensures facets[i].Some? && Alike(old(facets)[i].value, facets[i].value) && Drained(facets[i].value)
      ensures AllExact(old(facets)[i].value, replies) ==> discarded == old(discarded)
      ensures var f, g := old(facets)[i].value, facets[i].value;
              fair && AllExact(f, replies) ==> g.packets - g.prevPackets == Held(f)
    {
      ReinstallFast(i, replies);
    }

    /** `facet_revalidate`: with changed actions, everything the old rule is due is credited to it
        before the facet moves to the new rule. */
    method Revalidate(i: nat, verdict: Verdict, replies: seq<Reply>)
      requires Valid() && Settled() && i < |facets| && facets[i].Some? && |replies| == |facets[i].value.subfacets|
      requires verdict.Stays? ==> verdict.rule < |rules|
      modifies this`facets, this`rules, this`discarded, this`fair, this`slowReports
      ensures Valid() && Settled() && |facets| == |old(facets)|
      ensures facets == old(facets)[i := facets[i]] && CreditedOnly(old(rules), rules, old(facets)[i].value.rule)
      ensures facets[i].None? <==> verdict.Gone?
      ensures var f := old(facets)[i].value;
              fair && AllExact(f, replies) ==>
                match verdict
                case Gone =>
                  rules[f.rule].packets
                  == old(rules)[f.rule].packets + Held(f) + Sum(Amount, Reports(f, replies, |replies|))
                case Stays(changed, _) =>
                  rules[f.rule].packets == old(rules)[f.rule].packets + if changed then Held(f) else 0
      ensures verdict.Stays? ==> facets[i].value.rule == verdict.rule
      ensures verdict.Stays? && verdict.actionsChanged ==>
               facets[i].value.packets == 0 && facets[i].value.prevPackets == 0
      ensures verdict.Stays? && verdict.rule != old(facets)[i].value.rule ==>
                facets[i].value.used == facets[i].value.prevUsed == old(rules)[verdict.rule].created
      ensures verdict.Stays? && !verdict.actionsChanged ==>
                && rules == old(rules) && facets[i].value.packets == old(facets)[i].value.packets
                && facets[i].value.subfacets == old(facets)[i].value.subfacets
      ensures AllExact(old(facets)[i].value, replies) ==> discarded == old(discarded)
      ensures fair && verdict.Gone? ==>
               slowReports == old(slowReports) + Reports(old(facets)[i].value, replies, |replies|)
      ensures verdict.Stays? ==> slowReports == old(slowReports)
    {
      hide FacetOk, Held, Within, Drained;
      if verdict.Gone? {
        RemoveFacet(i, replies);
        return;
      }
      if verdict.actionsChanged {
        ReinstallFast(i, replies);
        FlushStats(i);
      }
      var f := facets[i].value;
      if f.rule != verdict.rule {
        assert EntryOk(facets[i], |rules|) && (fair ==> EntryWithin(facets[i]));
        var created := rules[verdict.rule].created;
        var g := f.(rule := verdict.rule, used := created, prevUsed := created);
        Rehoused(f, g);
        Save(i, g, true, 0);
      }
    }

    /** `update_stats` for one flow of a dump, with `update_subfacet_stats`. `learn` says whether
        `facet_learn` pushes. */
    method DumpedFlow(i: nat, j: nat, stats: Stats, learn: bool)
      requires Valid() && Settled() && i < |facets| && facets[i].Some? && j < |facets[i].value.subfacets|
      modifies this`facets, this`rules, this`discarded, this`fair
      ensures Valid() && Settled() && |facets| == |old(facets)| && |rules| == |old(rules)|
      ensures facets == old(facets)[i := facets[i]] && discarded == old(discarded)
      ensures CreditedOnly(old(rules), rules, old(facets)[i].value.rule) && (!learn ==> rules == old(rules))
      ensures old(facets)[i].value.subfacets[j].path != FastPath ==> facets == old(facets) && rules == old(rules)
      ensures old(facets)[i].value.subfacets[j].path == FastPath ==>
                && facets[i].Some? && ReadAt(facets[i].value, j, stats)
                && facets[i].value.accounted >= facets[i].value.bytes
                && facets[i].value.packets == old(facets)[i].value.packets
                   + (var was := old(facets)[i].value.subfacets[j].dpPackets;
                      if stats.packets >= was then stats.packets - was else 0)
                && (facets[i].value.packets > old(facets)[i].value.packets ==>
                      facets[i].value.bytes == old(facets)[i].value.bytes
                        + (var was := old(facets)[i].value.subfacets[j].dpBytes;
                           if stats.bytes >= was then stats.bytes - was else 0))
    {
      hide FacetOk, Held, Within;
      var f := facets[i].value;
      if f.subfacets[j].path != FastPath {
        return;
      }
      var sf := f.subfacets[j];
      assert EntryOk(facets[i], |rules|) && (fair ==> EntryWithin(facets[i]));
      var diff := Diff(sf, stats);
      var g := f.(subfacets := f.subfacets[j := sf.(dpPackets := stats.packets, dpBytes := stats.bytes)]);
      ReadOk(f, j, stats);
      UpdateStatsOk(g, j, diff);
      g := UpdateStats(g, j, diff);
      if fair && Fair(sf, Reply(true, stats)) { StillWithin(f, g, j); }
      Save(i, g, Fair(sf, Reply(true, stats)), 0);
      Account(i, learn);
    }

    /** The end of `update_subfacet_stats`. */
    method Account(i: nat, learn: bool)
      requires Valid() && i < |facets| && facets[i].Some?
      modifies this`facets, this`rules, this`discarded, this`fair
      ensures Valid() && |facets| == |old(facets)| && |rules| == |old(rules)| && facets[i].Some?
      ensures facets == old(facets)[i := facets[i]] && facets[i].value.subfacets == old(facets)[i].value.subfacets
      ensures facets[i].value.packets == old(facets)[i].value.packets
      ensures facets[i].value.bytes == old(facets)[i].value.bytes
      ensures CreditedOnly(old(rules), rules, old(facets)[i].value.rule) && (!learn ==> rules == old(rules))
      ensures discarded == old(discarded) && fair == old(fair) && facets[i].value.accounted >= facets[i].value.bytes
    {
      hide FacetOk, Held, Within;
      var g := facets[i].value;
      if g.accounted < g.bytes {
        if learn {
          PushStats(i, true);
        }
        g := facets[i].value;
        assert EntryOk(facets[i], |rules|) && (fair ==> EntryWithin(facets[i]));
        Accounted(g);
        Save(i, g.(accounted := g.bytes), true, 0);
      }
    }

    /** The datapath forwards packets on a fast-path flow. */
    method Traffic(i: nat, j: nat, packets: nat, bytes: nat)
      requires Valid() && i < |facets| && facets[i].Some? && j < |facets[i].value.subfacets|
      requires facets[i].value.subfacets[j].path == FastPath
      modifies this`facets, this`arrived
      ensures Valid() && facets == old(facets)[i := Some(Sighted(old(facets)[i].value, j, packets, bytes))]
      ensures arrived == old(arrived) + packets && (old(Settled()) ==> Settled())
    {
      hide FacetOk, Held, Within;
      var f := facets[i].value;
      assert EntryOk(facets[i], |rules|) && (fair ==> EntryWithin(facets[i]));
      var g := Sighted(f, j, packets, bytes);
      Forwarded(f, g, j, packets);
      SumUpdate(HeldBy, facets, i, Some(g));
      facets := facets[i := Some(g)];
      arrived := arrived + packets;
    }

    /** `handle_flow_miss` up to `facet_create`: the rule is credited at once. With `makeFacet` a facet
        is created that has nothing unpushed, and no subfacet yet. */
    method MissWithoutFacet(rule: nat, slow: bool, stats: Stats, makeFacet: bool)
      requires Valid() && rule < |rules|
      modifies this`facets, this`rules, this`arrived
      ensures Valid() && |rules| == |old(rules)| && arrived == old(arrived) + stats.packets
      ensures CreditedOnly(old(rules), rules, rule)
      ensures && rules[rule].packets == old(rules)[rule].packets + stats.packets
              && rules[rule].bytes == old(rules)[rule].bytes + stats.bytes
              && IsMax(rules[rule].used, old(rules)[rule].used, stats.used)
      ensures !makeFacet ==> facets == old(facets)
      ensures makeFacet ==> |facets| == |old(facets)| + 1 && facets[..|old(facets)|] == old(facets)
      ensures makeFacet ==> facets[|old(facets)|] == Some(
                Facet(rule, slow, [], stats.used, 0, stats.packets, stats.bytes, stats.packets, stats.bytes, 0))
    {
      SumUpdate(PacketsOf, rules, rule, Credited(rules[rule], stats));
      rules := rules[rule := Credited(rules[rule], stats)];
      arrived := arrived + stats.packets;
      if makeFacet {
        var f := Facet(rule, slow, [], stats.used, 0, stats.packets, stats.bytes, stats.packets, stats.bytes, 0);
        SumAppend(HeldBy, facets, Some(f));
        facets := facets + [Some(f)];
      }
    }

    /** `subfacet_find` */
    method FindSubfacet(key: nat) returns (at: Option<(nat, nat)>)
      ensures at.Some? ==> var (i, j) := at.value;
                i < |facets| && facets[i].Some? && KeyAt(facets[i].value.subfacets, key) == Some(j)
      ensures at.None? ==> forall i, j | 0 <= i < |facets| && facets[i].Some? && 0 <= j < |facets[i].value.subfacets| ::
                facets[i].value.subfacets[j].key != key
    {
      for i := 0 to |facets|
        invariant forall k, j | 0 <= k < i && facets[k].Some? && 0 <= j < |facets[k].value.subfacets| ::
          facets[k].value.subfacets[j].key != key
      {
        if facets[i].Some? {
          for j := 0 to |facets[i].value.subfacets|
            invariant forall k | 0 <= k < j :: facets[i].value.subfacets[k].key != key
          {
            if facets[i].value.subfacets[j].key == key {
              FirstKey(facets[i].value.subfacets, key, j);
              return Some((i, j));
            }
          }
        }
      }
      return None;
    }

    /** `subfacet_create`: the subfacet of facet `i` with the key, a new one if need be. One with that
        key in another facet is destroyed first. */
    method CreateSubfacet(i: nat, key: nat, now: nat, reply: Reply) returns (j: nat)
      requires Valid() && i < |facets| && facets[i].Some?
      requires forall k | 0 <= k < |facets| && k != i && facets[k].Some? :: facets[k].value.subfacets != []
      modifies this`facets, this`rules, this`discarded, this`fair, this`slowReports
      ensures Valid() && Settled() && |facets| == |old(facets)| && |rules| == |old(rules)|
      ensures facets[i].Some? && j < |facets[i].value.subfacets| && facets[i].value.subfacets[j].key == key
      ensures facets[i].value == old(facets)[i].value.(subfacets := facets[i].value.subfacets)
      ensures !Elsewhere(old(facets), i, key) ==>
                && facets == old(facets)[i := Some(WithKey(old(facets)[i].value, key, now))]
                && KeyAt(facets[i].value.subfacets, key) == Some(j) && rules == old(rules)
                && discarded == old(discarded) && slowReports == old(slowReports) && fair == old(fair)
      ensures fair ==> slowReports == old(slowReports) || slowReports == old(slowReports) + [reply.stats.packets]
    {
      hide FacetOk, Held, Within, KeyAt;
      if facets[i].value.subfacets != [] {
        var at := FindSubfacet(key);
        if at.Some? {
          var (k, l) := at.value;
          if k == i {
            return l;
          }
          DestroySubfacet(k, l, reply);
        }
      }
      j := Append(i, key, now);
    }

    /** Gives facet `i` a new subfacet. */
    method Append(i: nat, key: nat, now: nat) returns (j: nat)
      requires Valid() && i < |facets| && facets[i].Some?
      modifies this`facets, this`discarded, this`fair
      ensures Valid() && discarded == old(discarded) && fair == old(fair)
      ensures var f, sf := old(facets)[i].value, Subfacet(key, NotInstalled, now, 0, 0, 0, 0);
              && j == |f.subfacets| && facets == old(facets)[i := Some(f.(subfacets := f.subfacets + [sf]))]
              && (KeyAt(f.subfacets, key).None? ==> KeyAt(f.subfacets + [sf], key) == Some(j))
    {
      hide FacetOk, Held, Within, KeyAt;
      var f := facets[i].value;
      assert EntryOk(facets[i], |rules|) && (fair ==> EntryWithin(facets[i]));
      var sf := Subfacet(key, NotInstalled, now, 0, 0, 0, 0);
      AppendedOk(f, sf);
      j := |f.subfacets|;
      if KeyAt(f.subfacets, key).None? { NewKey(f.subfacets, sf); }
      Save(i, f.(subfacets := f.subfacets + [sf]), true, 0);
    }

    /** `handle_flow_miss_with_facet`, and the flow put it asks for. `stats` is `None` for a facet just
        created, whose packets its rule has been credited with; `action` is an upcall by action. */
    method MissWithFacet(i: nat, key: nat, now: nat, stats: Option<Stats>, action: bool, putOk: bool, reply: Reply)
      requires Valid() && i < |facets| && facets[i].Some?
      requires forall k | 0 <= k < |facets| && k != i && facets[k].Some? :: facets[k].value.subfacets != []
      modifies this`facets, this`rules, this`arrived, this`discarded, this`fair, this`slowReports
      ensures Valid() && Settled() && |facets| == |old(facets)| && |rules| == |old(rules)|
      ensures arrived == old(arrived) + if stats.Some? then stats.value.packets else 0
      ensures facets[i].Some?
      ensures facets[i].value.packets == old(facets)[i].value.packets + if stats.Some? then stats.value.packets else 0
      ensures !Elsewhere(old(facets), i, key) ==>
                && facets == old(facets)[i := Some(Missed(old(facets)[i].value, key, now, stats, action, putOk))]
                && rules == old(rules) && discarded == old(discarded) && slowReports == old(slowReports)
                && fair == old(fair)
      ensures fair ==> slowReports == old(slowReports) || slowReports == old(slowReports) + [reply.stats.packets]
      ensures putOk && !(action && old(facets)[i].value.subfacets != []) ==> Installed(facets[i].value, key)
    {
      hide FacetOk, Held, Within, KeyAt, Elsewhere, WithKey;
      if action && facets[i].value.subfacets != [] {
        if stats.Some? {
          Receive(i, Handed(facets[i].value, stats.value), stats.value.packets);
        }
        return;
      }
      var j := CreateSubfacet(i, key, now, reply);
      Land(i, j, stats, putOk);
      assert putOk ==> facets[i].value.subfacets[j].path == Want(facets[i].value.slow);
    }

    /** The part of it after the subfacet is known. */
    method Land(i: nat, j: nat, stats: Option<Stats>, putOk: bool)
      requires Valid() && i < |facets| && facets[i].Some? && j < |facets[i].value.subfacets|
      modifies this`facets, this`arrived, this`discarded, this`fair
      ensures Valid() && facets == old(facets)[i := Some(Landed(old(facets)[i].value, j, stats, putOk))]
      ensures arrived == old(arrived) + if stats.Some? then stats.value.packets else 0
      ensures discarded == old(discarded) && fair == old(fair)
    {
      hide FacetOk, Held, Within, UpdateStats;
      assert EntryOk(facets[i], |rules|) && (fair ==> EntryWithin(facets[i]));
      if stats.Some? {
        UpdateStatsOk(facets[i].value, j, stats.value);
        UpdateWithin(facets[i].value, j, stats.value);
        Receive(i, UpdateStats(facets[i].value, j, stats.value), stats.value.packets);
      }
      PutFlow(i, j, putOk);
    }

    /** Asks for the flow to be put in the datapath, unless it is there already. */
    method PutFlow(i: nat, j: nat, putOk: bool)
      requires Valid() && i < |facets| && facets[i].Some? && j < |facets[i].value.subfacets|
      modifies this`facets, this`discarded, this`fair
      ensures Valid() && |facets| == |old(facets)| && facets[i].Some? && facets == old(facets)[i := facets[i]]
      ensures |facets[i].value.subfacets| == |old(facets)[i].value.subfacets| && discarded == old(discarded)
      ensures fair == old(fair)
      ensures var f, g := old(facets)[i].value, facets[i].value;
              g == WithPath(f, j, if putOk || f.subfacets[j].path == Want(f.slow) then Want(f.slow) else NotInstalled)
    {
      hide FacetOk, Held, Within;
      var f := facets[i].value;
      assert EntryOk(facets[i], |rules|) && (fair ==> EntryWithin(facets[i]));
      if f.subfacets[j].path != Want(f.slow) {
        SubIn(f, j);
        var path := if putOk then Want(f.slow) else NotInstalled;
        WithPathOk(f, j, path);
        if fair { ClearedWithin(f, WithPath(f, j, path), j); }
        Save(i, WithPath(f, j, path), true, 0);
      } else {
        assert WithPath(f, j, Want(f.slow)) == f;
      }
    }

    /** Stores a facet that has been given packets that just came. */
    method Receive(i: nat, g: Facet, packets: nat)
      requires Valid() && i < |facets| && facets[i].Some? && FacetOk(g) && g.rule < |rules|
      requires Held(g) == Held(facets[i].value) + packets && (fair ==> Within(g))
      modifies this`facets, this`arrived
      ensures Valid() && facets == old(facets)[i := Some(g)] && arrived == old(arrived) + packets
    {
      hide FacetOk, Held, Within;
      SumUpdate(HeldBy, facets, i, Some(g));
      facets := facets[i := Some(g)];
      arrived := arrived + packets;
    }

    /** `rule_construct`: the facets of the replaced rule move to the new one with their counters
        cleared, so what was unpushed is dropped. */
    method RuleConstruct(victim: Option<nat>, created: nat) returns (rule: nat)
      requires Valid()
      modifies this`facets, this`rules, this`discarded, this`fair
      ensures Valid() && rule == |old(rules)| && rules == old(rules) + [RuleStats(0, 0, 0, created)]
      ensures |facets| == |old(facets)| && fair == old(fair) && (old(Settled()) ==> Settled())
      ensures forall i | 0 <= i < |facets| :: facets[i] == Inherited(old(facets)[i], victim, rule)
      ensures forall i | 0 <= i < |facets| && (old(facets)[i].None? || victim != Some(old(facets)[i].value.rule)) ::
                facets[i] == old(facets)[i]
      ensures forall i | 0 <= i < |facets| && old(facets)[i].Some? && victim == Some(old(facets)[i].value.rule) ::
                facets[i].Some? &&
                var f, g := old(facets)[i].value, facets[i].value;
                && g.rule == rule && g.packets == g.prevPackets == g.bytes == g.prevBytes == g.accounted == 0
                && g.subfacets == f.subfacets && g.slow == f.slow && g.used == f.used && g.prevUsed == f.prevUsed
      ensures fair ==> discarded == old(discarded) + UnpushedOf(old(facets), victim, |old(facets)|)
    {
      hide FacetOk, Held, Within, Sum;
      rule := |rules|;
      SumAppend(PacketsOf, rules, RuleStats(0, 0, 0, created));
      rules := rules + [RuleStats(0, 0, 0, created)];
      for i := 0 to |facets|
        invariant Valid() && |facets| == |old(facets)| && fair == old(fair)
        invariant rules == old(rules) + [RuleStats(0, 0, 0, created)]
        invariant fair ==> discarded == old(discarded) + UnpushedOf(old(facets), victim, i)
        invariant forall k | 0 <= k < |facets| ::
                   facets[k] == if k < i then Inherited(old(facets)[k], victim, rule) else old(facets)[k]
      {
        assert EntryOk(facets[i], |rules|) && (fair ==> EntryWithin(facets[i]));
        if facets[i].Some? && victim == Some(facets[i].value.rule) {
          var f := facets[i].value;
          InheritOk(f, rule);
          Save(i, Inherit(f, rule), true, f.packets - f.prevPackets);
        }
      }
    }

    /** The datapath forwards packets on a slow-path flow to be handled: it counts them, and they come
        up as misses, which is when they are taken to have come. */
    method Upcall(i: nat, j: nat, packets: nat, bytes: nat)
      requires Valid() && i < |facets| && facets[i].Some? && j < |facets[i].value.subfacets|
      requires facets[i].value.subfacets[j].path == SlowPath
      modifies this`facets
      ensures Valid() && facets == old(facets)[i := Some(Sighted(old(facets)[i].value, j, packets, bytes))]
      ensures old(Settled()) ==> Settled()
    {
      hide FacetOk, Held, Within;
      var f := facets[i].value;
      assert EntryOk(facets[i], |rules|) && (fair ==> EntryWithin(facets[i]));
      SightedOk(f, j, packets, bytes);
      SumUpdate(HeldBy, facets, i, Some(Sighted(f, j, packets, bytes)));
      facets := facets[i := Some(Sighted(f, j, packets, bytes))];
    }

    /** The books are exact: what was credited, is unpushed, unread or dropped is what came, and once
        more what was reported of slow-path flows that `subfacet_uninstall` removed. */
    lemma ExactBooks()
      requires Valid() && fair
      ensures Sum(PacketsOf, rules) + Sum(UnpushedBy, facets) + Sum(UnreadBy, facets) + discarded
              == arrived + Sum(Amount, slowReports)
      ensures Sum(UnreadBy, facets) >= 0
    {
      forall i | 0 <= i < |facets| ensures UnreadBy(facets[i]) >= 0 {
        assert EntryWithin(facets[i]);
        if facets[i].Some? { HeldBound(facets[i].value); }
      }
      SumNonNegative(UnreadBy, facets);
      SumParts(facets);
    }

    /** No packet is counted twice if and only if no slow-path flow of which packets were reported has
        been removed by `subfacet_uninstall`. Then rules have been credited with, and facets hold
        unpushed, no more packets than came. */
    lemma CountedOnceIff()
      requires Valid() && fair
      ensures Sum(PacketsOf, rules) + Sum(HeldBy, facets) + discarded == arrived
              <==> AllZero(slowReports)
      ensures AllZero(slowReports) ==> Sum(PacketsOf, rules) + Sum(UnpushedBy, facets) <= arrived
    {
      ExactBooks();
      SumZeroIff(slowReports);
    }
  }

  // ---- batches ----

  /** A subfacet: the facet, and its place there. */
  datatype Place = Place(facet: nat, at: nat)

  ghost predicate PlaceOk(facets: seq<Option<Facet>>, p: Place) {
    p.facet < |facets| && facets[p.facet].Some? && p.at < |facets[p.facet].value.subfacets|
  }

  ghost predicate BatchOk(facets: seq<Option<Facet>>, batch: seq<Place>) {
    && (forall k | 0 <= k < |batch| :: PlaceOk(facets, batch[k]))
    && (forall k, m | 0 <= k < m < |batch| :: batch[k] != batch[m])
  }

  ghost function SubAtPlace(facets: seq<Option<Facet>>, p: Place): Subfacet {
    if PlaceOk(facets, p) then facets[p.facet].value.subfacets[p.at] else Subfacet(0, NotInstalled, 0, 0, 0, 0, 0)
  }

  /** The packets of the batch that only the datapath has counted. */
  ghost function UnreadIn(facets: seq<Option<Facet>>, batch: seq<Place>): int {
    if batch == [] then 0
    else UnreadIn(facets, batch[..|batch| - 1]) + Unread(SubAtPlace(facets, batch[|batch| - 1]))
  }

  ghost predicate Deleted(facets: seq<Option<Facet>>, batch: seq<Place>) {
    forall k | 0 <= k < |batch| :: Unread(SubAtPlace(facets, batch[k])) == 0
  }

  function Count(o: Option<Facet>): int {
    if o.None? then 0 else |o.value.subfacets|
  }

  /** How many subfacets of facet `i` are in the batch. */
  function Members(batch: seq<Place>, i: nat): nat {
    if batch == [] then 0 else (if batch[0].facet == i then 1 else 0) + Members(batch[1..], i)
  }

  /** The places after the subfacet at `p` has been taken out. */
  function Shifted(batch: seq<Place>, p: Place): (r: seq<Place>)
    ensures |r| == |batch|
    ensures forall k | 0 <= k < |r| :: r[k] == Shift(batch[k], p)
  {
    seq(|batch|, k requires 0 <= k < |batch| => Shift(batch[k], p))
  }

  function Shift(q: Place, p: Place): Place {
    if q.facet == p.facet && q.at > p.at then Place(q.facet, q.at - 1) else q
  }

  lemma {:induction false} MembersShift(batch: seq<Place>, p: Place, i: nat)
    ensures Members(Shifted(batch, p), i) == Members(batch, i)
  {
    if batch != [] {
      assert Shifted(batch, p)[1..] == Shifted(batch[1..], p);
      MembersShift(batch[1..], p, i);
    }
  }

  lemma BatchHead(facets: seq<Option<Facet>>, batch: seq<Place>)
    requires BatchOk(facets, batch) && batch != []
    ensures PlaceOk(facets, batch[0])
    ensures Deleted(facets, batch) ==> Unread(SubAtPlace(facets, batch[0])) == 0
  {
  }

  /** The subfacet at `p` has been taken out, and the facet with its last. */
  ghost predicate TakenOut(was: seq<Option<Facet>>, now: seq<Option<Facet>>, p: Place)
    requires PlaceOk(was, p)
  {
    var f := was[p.facet].value;
    && |now| == |was| && (forall k | 0 <= k < |now| && k != p.facet :: now[k] == was[k])
    && (|f.subfacets| == 1 ==> now[p.facet] == None)
    && (|f.subfacets| > 1 ==> now[p.facet].Some? && now[p.facet].value.subfacets == Dropped(f, p.at).subfacets)
  }

  lemma PlaceShifts(was: seq<Option<Facet>>, now: seq<Option<Facet>>, p: Place, q: Place)
    requires PlaceOk(was, p) && PlaceOk(was, q) && p != q && TakenOut(was, now, p)
    ensures PlaceOk(now, Shift(q, p)) && SubAtPlace(now, Shift(q, p)) == SubAtPlace(was, q)
  {
  }

  lemma ShiftsApart(q: Place, r: Place, p: Place)
    requires q != r && q != p && r != p
    ensures Shift(q, p) != Shift(r, p)
  {
  }

  lemma OneFewer(was: seq<Option<Facet>>, now: seq<Option<Facet>>, p: Place)
    requires PlaceOk(was, p) && TakenOut(was, now, p)
    ensures forall i | 0 <= i < |now| :: Count(now[i]) == Count(was[i]) - if i == p.facet then 1 else 0
  {
  }

  /** Taking the first subfacet of the batch out leaves the others, one place down where they stood
      behind it. */
  lemma BatchShifts(was: seq<Option<Facet>>, now: seq<Option<Facet>>, batch: seq<Place>)
    requires BatchOk(was, batch) && batch != [] && TakenOut(was, now, batch[0])
    ensures var p := batch[0];
            var rest := Shifted(batch[1..], p);
            && BatchOk(now, rest) && (Deleted(was, batch) ==> Deleted(now, rest))
            && forall i | 0 <= i < |now| :: Count(now[i]) - Members(rest, i) == Count(was[i]) - Members(batch, i)
  {
    hide PlaceOk, SubAtPlace, Shift, Unread;
    var p, rest := batch[0], Shifted(batch[1..], batch[0]);
    forall k | 0 <= k < |rest|
      ensures PlaceOk(now, rest[k]) && SubAtPlace(now, rest[k]) == SubAtPlace(was, batch[k + 1])
    {
      assert PlaceOk(was, p);
      PlaceShifts(was, now, p, batch[k + 1]);
    }
    forall k, m | 0 <= k < m < |rest| ensures rest[k] != rest[m] { ShiftsApart(batch[k + 1], batch[m + 1], p); }
    assert PlaceOk(was, p);
    OneFewer(was, now, p);
    forall i | 0 <= i < |now| ensures Count(now[i]) - Members(rest, i) == Count(was[i]) - Members(batch, i) {
      MembersShift(batch[1..], p, i);
    }
  }

  /** The facet after the flow of a subfacet is gone from the datapath, with what it had not reported. */
  function FlowGone(f: Facet, j: nat): Facet
    requires j < |f.subfacets|
  {
    var sf := f.subfacets[j];
    f.(subfacets := f.subfacets[j := sf.(flowPackets := sf.dpPackets, flowBytes := sf.dpBytes)])
  }

  lemma FlowGoneOk(f: Facet, j: nat)
    requires FacetOk(f) && j < |f.subfacets|
    ensures var g := FlowGone(f, j);
            && FacetOk(g) && Held(g) + Unread(f.subfacets[j]) == Held(f)
            && (Within(f) ==> Within(g) && Unread(f.subfacets[j]) >= 0)
  {
    var g := FlowGone(f, j);
    forall k | 0 <= k < |g.subfacets| ensures SubOk(g.slow, g.subfacets[k]) { assert SubOk(f.slow, f.subfacets[k]); }
    SumUpdate(Unread, f.subfacets, j, g.subfacets[j]);
    if Within(f) {
      forall k | 0 <= k < |g.subfacets| ensures SubWithin(g.subfacets[k]) { assert SubWithin(f.subfacets[k]); }
      assert SubWithin(f.subfacets[j]);
    }
  }

  lemma FlowGoneFrame(was: seq<Option<Facet>>, now: seq<Option<Facet>>, batch: seq<Place>, k: nat)
    requires BatchOk(was, batch) && k < |batch|
    requires var p := batch[k]; now == was[p.facet := Some(FlowGone(was[p.facet].value, p.at))]
    ensures BatchOk(now, batch) && (Deleted(was, batch[..k]) ==> Deleted(now, batch[..k + 1]))
    ensures forall m | k < m < |batch| :: SubAtPlace(now, batch[m]) == SubAtPlace(was, batch[m])
  {
    forall m | 0 <= m < |batch|
      ensures PlaceOk(now, batch[m]) && (m != k ==> SubAtPlace(now, batch[m]) == SubAtPlace(was, batch[m]))
    {
      assert PlaceOk(was, batch[m]);
      if m != k { assert batch[m] != batch[k]; }
    }
    if Deleted(was, batch[..k]) {
      var done := batch[..k + 1];
      forall m | 0 <= m < |done| ensures Unread(SubAtPlace(now, done[m])) == 0 {
        if m < k { assert batch[..k][m] == batch[m]; }
      }
    }
  }

  /** The place of the first subfacet with a key. */
  function KeyAt(s: seq<Subfacet>, key: nat): (at: Option<nat>)
    ensures at.Some? ==> at.value < |s| && s[at.value].key == key
    ensures at.None? ==> forall j | 0 <= j < |s| :: s[j].key != key
  {
    if s == [] then None
    else if s[0].key == key then Some(0)
    else
      var rest := KeyAt(s[1..], key);
      if rest.None? then None else Some(rest.value + 1)
  }

  lemma {:induction false} FirstKey(s: seq<Subfacet>, key: nat, j: nat)
    requires j < |s| && s[j].key == key && forall k | 0 <= k < j :: s[k].key != key
    ensures KeyAt(s, key) == Some(j)
    decreases j
  {
    if j > 0 { FirstKey(s[1..], key, j - 1); }
  }

  lemma NewKey(s: seq<Subfacet>, sf: Subfacet)
    requires KeyAt(s, sf.key) == None
    ensures KeyAt(s + [sf], sf.key) == Some(|s|)
  {
    FirstKey(s + [sf], sf.key, |s|);
  }

  /** A facet other than `i` has a subfacet with the key. */
  ghost predicate Elsewhere(facets: seq<Option<Facet>>, i: nat, key: nat) {
    exists k :: 0 <= k < |facets| && k != i && facets[k].Some? && KeyAt(facets[k].value.subfacets, key).Some?
  }

  /** The facet with a subfacet for the key. */
  function WithKey(f: Facet, key: nat, now: nat): (g: Facet)
    ensures KeyAt(g.subfacets, key).Some?
  {
    if KeyAt(f.subfacets, key).Some? then f
    else
      NewKey(f.subfacets, Subfacet(key, NotInstalled, now, 0, 0, 0, 0));
      f.(subfacets := f.subfacets + [Subfacet(key, NotInstalled, now, 0, 0, 0, 0)])
  }

  /** The facet after `handle_flow_miss_with_facet`, when no other facet has the key. */
  function Missed(f: Facet, key: nat, now: nat, stats: Option<Stats>, action: bool, putOk: bool): Facet {
    if action && f.subfacets != [] then
      if stats.Some? then Handed(f, stats.value) else f
    else
      var g := WithKey(f, key, now);
      var j := KeyAt(g.subfacets, key).value;
      Landed(g, j, stats, putOk)
  }

  function Landed(f: Facet, j: nat, stats: Option<Stats>, putOk: bool): (g: Facet)
    requires j < |f.subfacets|
    ensures |g.subfacets| == |f.subfacets| && g.slow == f.slow && g.subfacets[j].key == f.subfacets[j].key
    ensures putOk ==> g.subfacets[j].path == Want(f.slow)
    ensures g.packets == f.packets + if stats.Some? then stats.value.packets else 0
  {
    var u := if stats.Some? then UpdateStats(f, j, stats.value) else f;
    WithPath(u, j, if putOk || u.subfacets[j].path == Want(f.slow) then Want(f.slow) else NotInstalled)
  }

  /** The run in which a packet is counted twice: a facet is made for a packet that must go up, a
      second packet is counted by the slow-path flow and comes up too, and the facet is removed. Two
      packets came; the rule is credited with three. */
  method SlowPathRun() returns (o: Ofproto)
    ensures o.Valid() && o.Settled() && o.fair && o.discarded == 0
    ensures o.arrived == 2 && |o.rules| == 1 && o.rules[0].packets == 3
  {
    hide FacetOk, Held, Within, Sum;
    o := TwoSlowPackets();
    ghost var f := o.facets[0].value;
    var replies := [Reply(true, Stats(1, 60, 2))];
    assert Reports(f, replies, 1) == Reports(f, replies, 0) + [1] == [1];
    o.RemoveFacet(0, replies);
    assert o.facets == [None] && o.slowReports == [1];
    SumOne(PacketsOf, o.rules);
    SumOne(HeldBy, o.facets);
    SumOne(Amount, o.slowReports);
  }

  lemma SumOne<T(!new)>(value: T -> int, s: seq<T>)
    requires |s| == 1
    ensures Sum(value, s) == value(s[0])
  {
    assert s[..0] == [];
  }

  /** The same run up to the removal. */
  method TwoSlowPackets() returns (o: Ofproto)
    ensures fresh(o) && o.Valid() && o.Settled() && o.fair && o.discarded == 0 && o.arrived == 2 && o.slowReports == []
    ensures |o.rules| == 1 && |o.facets| == 1 && o.facets[0].Some?
    ensures o.facets[0].value.subfacets == [Subfacet(7, SlowPath, 2, 0, 0, 1, 60)]
  {
    hide FacetOk, Held, Within;
    o := OneSlowPacket();
    o.Upcall(0, 0, 1, 60);
    assert o.facets[0].value.subfacets == [Subfacet(7, SlowPath, 1, 0, 0, 1, 60)];
    o.MissWithFacet(0, 7, 2, Some(Stats(1, 60, 2)), false, true, Reply(false, Stats(0, 0, 0)));
  }

  method OneSlowPacket() returns (o: Ofproto)
    ensures fresh(o) && o.Valid() && o.Settled() && o.fair && o.discarded == 0 && o.arrived == 1 && o.slowReports == []
    ensures |o.rules| == 1 && |o.facets| == 1 && o.facets[0].Some? && o.facets[0].value.slow
    ensures o.facets[0].value.subfacets == [Subfacet(7, SlowPath, 1, 0, 0, 0, 0)]
  {
    hide FacetOk, Held, Within;
    o := new Ofproto();
    var rule := o.RuleConstruct(None, 0);
    o.MissWithoutFacet(rule, true, Stats(1, 60, 1), true);
    o.MissWithFacet(0, 7, 1, None, false, true, Reply(false, Stats(0, 0, 0)));
  }

  /** The figure reported of a slow-path flow. */
  function Report(sf: Subfacet, reply: Reply): seq<nat> {
    if sf.path == SlowPath then [reply.stats.packets] else []
  }

  lemma ReportedBounds(sf: Subfacet, reply: Reply)
    requires Fair(sf, reply)
    ensures Unreported(sf, reply) >= 0
  {
  }

  lemma LostBounds(sf: Subfacet, reply: Reply)
    requires FairOrGone(sf, reply)
    ensures Lost(sf, reply) >= 0 && (Exact(sf, reply) ==> Lost(sf, reply) == 0)
  {
  }

  lemma ReportSum(reports: seq<nat>, sf: Subfacet, reply: Reply)
    ensures Sum(Amount, reports + Report(sf, reply)) == Sum(Amount, reports) + Again(sf, reply)
  {
    if sf.path == SlowPath {
      SumAppend(Amount, reports, reply.stats.packets);
    } else {
      assert reports + [] == reports;
    }
  }

  /** Those of the first `n` subfacets. */
  function Reports(f: Facet, replies: seq<Reply>, n: nat): seq<nat>
    requires n <= |f.subfacets| && n <= |replies|
  {
    if n == 0 then [] else Reports(f, replies, n - 1) + Report(f.subfacets[n - 1], replies[n - 1])
  }

  /** The reply reports every packet that the datapath has counted, if the flow is installed. */
  ghost predicate Exact(sf: Subfacet, reply: Reply) {
    sf.path == NotInstalled || reply.stats.packets == sf.flowPackets
  }

  /** The replies for the first `n` subfacets are fair. */
  ghost predicate FairTo(f: Facet, replies: seq<Reply>, n: nat) {
    n <= |f.subfacets| && n <= |replies| && forall k | 0 <= k < n :: FairOrGone(f.subfacets[k], replies[k])
  }

  ghost predicate AllFair(f: Facet, replies: seq<Reply>) {
    FairTo(f, replies, |replies|)
  }

  ghost predicate ExactTo(f: Facet, replies: seq<Reply>, n: nat) {
    n <= |f.subfacets| && n <= |replies| && forall k | 0 <= k < n :: Exact(f.subfacets[k], replies[k])
  }

  ghost predicate AllExact(f: Facet, replies: seq<Reply>) {
    ExactTo(f, replies, |replies|)
  }

  function Credited(r: RuleStats, stats: Stats): RuleStats {
    r.(packets := r.packets + stats.packets, bytes := r.bytes + stats.bytes, used := Max(r.used, stats.used))
  }

  /** The facet after `facet_push_stats`. */
  function Pushed(f: Facet, mayLearn: bool): Facet {
    if mayLearn || f.packets > f.prevPackets || f.used > f.prevUsed
    then f.(prevPackets := f.packets, prevBytes := f.bytes, prevUsed := f.used)
    else f
  }

  /** The facet after `facet_flush_stats`. */
  function Flushed(f: Facet): Facet {
    Pushed(f, false).(packets := 0, bytes := 0, prevPackets := 0, prevBytes := 0, accounted := 0)
  }

  function Dropped(f: Facet, j: nat): Facet {
    if j < |f.subfacets| then f.(subfacets := f.subfacets[..j] + f.subfacets[j + 1..]) else f
  }

  /** The first `n` subfacets are not installed. */
  ghost predicate Uninstalled(f: Facet, n: nat) {
    n <= |f.subfacets| && forall k | 0 <= k < n ::
      f.subfacets[k].path == NotInstalled && f.subfacets[k].dpPackets == 0 && f.subfacets[k].dpBytes == 0
  }

  /** No rule but `r` has been credited, and that one keeps its time of creation. */
  ghost predicate CreditedOnly(was: seq<RuleStats>, now: seq<RuleStats>, r: nat) {
    && |now| == |was| && (forall k | 0 <= k < |now| && k != r :: now[k] == was[k])
    && (r < |now| ==> now[r].created == was[r].created && now[r].packets >= was[r].packets)
  }

  /** A subfacet with the key is installed, on the path that the facet wants. */
  ghost predicate Installed(f: Facet, key: nat) {
    exists j :: 0 <= j < |f.subfacets| && f.subfacets[j].key == key
              && f.subfacets[j].path == if f.slow then SlowPath else FastPath
  }

  lemma IsDrained(f: Facet)
    requires Uninstalled(f, |f.subfacets|)
    ensures Drained(f) && Uninstalled(Flushed(f), |f.subfacets|)
  {
  }

  lemma HeldIsUnpushed(f: Facet)
    requires forall k | 0 <= k < |f.subfacets| :: Unread(f.subfacets[k]) == 0
    ensures Held(f) == f.packets - f.prevPackets
  {
    SumZero(Unread, f.subfacets);
  }

  lemma UninstalledNext(f: Facet, g: Facet, j: nat)
    requires Uninstalled(f, j) && OthersAlike(f, g, j) && j < |f.subfacets|
    requires g.subfacets[j].path == NotInstalled && g.subfacets[j].dpPackets == 0 && g.subfacets[j].dpBytes == 0
    ensures Uninstalled(g, j + 1)
  {
  }

  lemma NothingHeld(f: Facet)
    requires f.subfacets == [] && f.packets == f.prevPackets
    ensures Held(f) == 0
  {
  }

  function UnpushedBy(o: Option<Facet>): int {
    if o.None? then 0 else o.value.packets - o.value.prevPackets
  }

  /** Packets of the facet that only the datapath has counted. */
  ghost function UnreadBy(o: Option<Facet>): int {
    if o.None? then 0 else Sum(Unread, o.value.subfacets)
  }

  lemma {:induction false} SumParts(s: seq<Option<Facet>>)
    ensures Sum(HeldBy, s) == Sum(UnpushedBy, s) + Sum(UnreadBy, s)
  {
    if s != [] { SumParts(s[..|s| - 1]); }
  }

  lemma {:induction false} SumZeroIff(s: seq<nat>)
    ensures Sum(Amount, s) >= 0 && (Sum(Amount, s) == 0 <==> forall r | r in s :: r == 0)
  {
    if s != [] {
      var rest, last := s[..|s| - 1], s[|s| - 1];
      SumZeroIff(rest);
      assert s == rest + [last];
      assert Sum(Amount, s) == Sum(Amount, rest) + last;
      assert last in s && forall r :: r in s <==> r in rest || r == last;
    }
  }

  /** The facet after one of its flows has counted more packets. */
  function Sighted(f: Facet, j: nat, packets: nat, bytes: nat): Facet
    requires j < |f.subfacets|
  {
    var sf := f.subfacets[j];
    var seen := sf.(flowPackets := sf.flowPackets + packets, flowBytes := sf.flowBytes + bytes);
    f.(subfacets := f.subfacets[j := seen])
  }

  lemma SightedOk(f: Facet, j: nat, packets: nat, bytes: nat)
    requires FacetOk(f) && j < |f.subfacets| && f.subfacets[j].path == SlowPath
    ensures var g := Sighted(f, j, packets, bytes); FacetOk(g) && Held(g) == Held(f) && (Within(f) ==> Within(g))
  {
    var g := Sighted(f, j, packets, bytes);
    forall k | 0 <= k < |g.subfacets| ensures SubOk(g.slow, g.subfacets[k]) { assert SubOk(f.slow, f.subfacets[k]); }
    SumSame(Unread, f.subfacets, g.subfacets);
    if Within(f) {
      forall k | 0 <= k < |g.subfacets| ensures SubWithin(g.subfacets[k]) { assert SubWithin(f.subfacets[k]); }
    }
  }

  ghost predicate AllZero(s: seq<nat>) {
    forall r | r in s :: r == 0
  }

  /** No slow-path flow of the first `n` subfacets has counted a packet. */
  ghost predicate SlowIdle(f: Facet, n: nat) {
    forall j | 0 <= j < n && j < |f.subfacets| && f.subfacets[j].path == SlowPath :: f.subfacets[j].flowPackets == 0
  }

  lemma AllZeroBoth(a: seq<nat>, b: seq<nat>)
    ensures AllZero(a + b) <==> AllZero(a) && AllZero(b)
  {
    assert forall r :: r in a + b <==> r in a || r in b;
  }

  /** With exact replies, removing a facet counts nothing twice if and only if no slow-path flow of
      its has counted a packet: something to be seen before the call. */
  lemma {:induction false} RemovalCountsOnceIff(f: Facet, replies: seq<Reply>, n: nat)
    requires n <= |f.subfacets| && n <= |replies| && ExactTo(f, replies, n)
    ensures AllZero(Reports(f, replies, n)) <==> SlowIdle(f, n)
    decreases n
  {
    if n > 0 {
      var sf, last := f.subfacets[n - 1], Report(f.subfacets[n - 1], replies[n - 1]);
      RemovalCountsOnceIff(f, replies, n - 1);
      AllZeroBoth(Reports(f, replies, n - 1), last);
      assert Exact(sf, replies[n - 1]);
      assert AllZero(last) <==> sf.path == SlowPath ==> sf.flowPackets == 0 by {
        if sf.path == SlowPath { assert last == [sf.flowPackets] && last[0] in last; }
      }
      assert SlowIdle(f, n) <==> SlowIdle(f, n - 1) && (sf.path == SlowPath ==> sf.flowPackets == 0);
    }
  }

  /** The packets that the first `n` facets hold unpushed for a rule. */
  function UnpushedOf(facets: seq<Option<Facet>>, rule: Option<nat>, n: nat): int
    requires n <= |facets|
  {
    if n == 0 then 0
    else
      UnpushedOf(facets, rule, n - 1)
      + if facets[n - 1].Some? && rule == Some(facets[n - 1].value.rule) then UnpushedBy(facets[n - 1]) else 0
  }

  /** `facet_reset_counters`, and the move to another rule. */
  function Inherit(f: Facet, rule: nat): Facet {
    f.(rule := rule, packets := 0, bytes := 0, prevPackets := 0, prevBytes := 0, accounted := 0)
  }

  function Inherited(o: Option<Facet>, victim: Option<nat>, rule: nat): Option<Facet> {
    if o.Some? && victim == Some(o.value.rule) then Some(Inherit(o.value, rule)) else o
  }

  lemma InheritOk(f: Facet, rule: nat)
    requires FacetOk(f)
    ensures FacetOk(Inherit(f, rule)) && Held(Inherit(f, rule)) == Held(f) - (f.packets - f.prevPackets)
    ensures f.packets >= f.prevPackets
    ensures Within(f) ==> Within(Inherit(f, rule))
  {
  }

  /** What `update_subfacet_stats` takes to be new. */
  function Diff(sf: Subfacet, stats: Stats): Stats {
    Stats(if stats.packets >= sf.dpPackets then stats.packets - sf.dpPackets else 0,
          if stats.bytes >= sf.dpBytes then stats.bytes - sf.dpBytes else 0, stats.used)
  }

  /** The reading of a subfacet is what the datapath last reported. */
  ghost predicate ReadAt(f: Facet, j: nat, stats: Stats) {
    j < |f.subfacets| && f.subfacets[j].dpPackets == stats.packets && f.subfacets[j].dpBytes == stats.bytes
  }

  lemma ReadOk(f: Facet, j: nat, stats: Stats)
    requires FacetOk(f) && j < |f.subfacets| && f.subfacets[j].path == FastPath
    ensures var sf := f.subfacets[j];
            var g := f.(subfacets := f.subfacets[j := sf.(dpPackets := stats.packets, dpBytes := stats.bytes)]);
            && FacetOk(g) && OthersAlike(f, g, j)
            && (Fair(sf, Reply(true, stats)) ==> Held(g) == Held(f) - Diff(sf, stats).packets)
  {
    var sf := f.subfacets[j];
    var g := f.(subfacets := f.subfacets[j := sf.(dpPackets := stats.packets, dpBytes := stats.bytes)]);
    forall k | 0 <= k < |g.subfacets| ensures SubOk(g.slow, g.subfacets[k]) { assert SubOk(f.slow, f.subfacets[k]); }
    SumUpdate(Unread, f.subfacets, j, g.subfacets[j]);
  }

  lemma Accounted(f: Facet)
    requires FacetOk(f)
    ensures var g := f.(accounted := f.bytes); FacetOk(g) && Held(g) == Held(f) && (Within(f) ==> Within(g))
  {
  }

  lemma Rehoused(f: Facet, g: Facet)
    requires FacetOk(f) && g.prevUsed <= g.used && g == f.(rule := g.rule, used := g.used, prevUsed := g.prevUsed)
    ensures FacetOk(g) && Held(g) == Held(f) && (Within(f) ==> Within(g))
  {
  }

  lemma Forwarded(f: Facet, g: Facet, j: nat, packets: nat)
    requires FacetOk(f) && j < |f.subfacets| && f.subfacets[j].path == FastPath
    requires |g.subfacets| == |f.subfacets| && g == f.(subfacets := f.subfacets[j := g.subfacets[j]])
    requires g.subfacets[j].flowPackets == f.subfacets[j].flowPackets + packets
    requires g.subfacets[j].flowBytes >= f.subfacets[j].flowBytes
    requires g.subfacets[j]
             == f.subfacets[j].(flowPackets := g.subfacets[j].flowPackets, flowBytes := g.subfacets[j].flowBytes)
    ensures FacetOk(g) && Held(g) == Held(f) + packets && (Within(f) ==> Within(g))
  {
    forall k | 0 <= k < |g.subfacets| ensures SubOk(g.slow, g.subfacets[k]) { assert SubOk(f.slow, f.subfacets[k]); }
    SumUpdate(Unread, f.subfacets, j, g.subfacets[j]);
    if Within(f) {
      forall k | 0 <= k < |g.subfacets| ensures SubWithin(g.subfacets[k]) { assert SubWithin(f.subfacets[k]); }
    }
  }

  lemma AppendedOk(f: Facet, sf: Subfacet)
    requires FacetOk(f) && SubOk(f.slow, sf) && Unread(sf) == 0 && SubWithin(sf)
    ensures var g := f.(subfacets := f.subfacets + [sf]); FacetOk(g) && Held(g) == Held(f) && (Within(f) ==> Within(g))
  {
    SumAppend(Unread, f.subfacets, sf);
  }

  /** A facet given packets that were handled without a subfacet. */
  function Handed(f: Facet, stats: Stats): (g: Facet)
    ensures FacetOk(f) ==> FacetOk(g)
    ensures Held(g) == Held(f) + stats.packets && (Within(f) ==> Within(g))
    ensures g.bytes == f.bytes + stats.bytes && IsMax(g.used, f.used, stats.used)
  {
    f.(used := Max(f.used, stats.used), packets := f.packets + stats.packets, bytes := f.bytes + stats.bytes)
  }

  lemma UpdateWithin(f: Facet, j: nat, stats: Stats)
    requires j < |f.subfacets|
    ensures Within(f) ==> Within(UpdateStats(f, j, stats))
  {
  }

  lemma SubIn(f: Facet, j: nat)
    requires FacetOk(f) && j < |f.subfacets|
    ensures SubOk(f.slow, f.subfacets[j])
  {
  }

  lemma StillWithin(f: Facet, g: Facet, j: nat)
    requires Within(f) && OthersAlike(f, g, j) && j < |f.subfacets| && SubWithin(g.subfacets[j])
    ensures Within(g)
  {
    forall k | 0 <= k < |g.subfacets| ensures SubWithin(g.subfacets[k]) {
      if k != j { assert SubWithin(f.subfacets[k]); }
    }
  }

  lemma ClearedWithin(f: Facet, g: Facet, j: nat)
    requires j < |f.subfacets| && |g.subfacets| == |f.subfacets| && SubWithin(g.subfacets[j])
    requires forall k | 0 <= k < |f.subfacets| && k != j :: g.subfacets[k] == f.subfacets[k]
    ensures Within(f) ==> Within(g) && Unread(f.subfacets[j]) >= 0
  {
  }

  ghost predicate DrainedTo(f: Facet, n: nat) {
    n <= |f.subfacets| && forall k | 0 <= k < n :: f.subfacets[k].dpPackets == 0 && f.subfacets[k].dpBytes == 0
  }

  lemma DrainedNext(f: Facet, g: Facet, j: nat)
    requires DrainedTo(f, j) && OthersAlike(f, g, j) && j < |f.subfacets|
    requires g.subfacets[j].dpPackets == 0 && g.subfacets[j].dpBytes == 0
    ensures DrainedTo(g, j + 1)
  {
  }
}
