/** The counters of one facet and its subfacets (`ofproto-dpif.c`), as values. */
module FacetCounters {
  datatype Path = NotInstalled | SlowPath | FastPath

  datatype Stats = Stats(packets: nat, bytes: nat, used: nat)

  /** What the datapath answers to a put or a delete. */
  datatype Reply = Reply(ok: bool, stats: Stats)

  /** `dpPackets` and `dpBytes` are what was last read from the datapath; `flowPackets` and
      `flowBytes` are what the datapath itself has counted for its flow, on either path, which the
      code sees only through replies. */
  datatype Subfacet = Subfacet(
    key: nat, path: Path, used: nat, dpPackets: nat, dpBytes: nat, flowPackets: nat, flowBytes: nat)

  datatype Facet = Facet(
    rule: nat, slow: bool, subfacets: seq<Subfacet>, used: nat, prevUsed: nat,
    packets: nat, bytes: nat, prevPackets: nat, prevBytes: nat, accounted: nat)

  function Want(slow: bool): Path {
    if slow then SlowPath else FastPath
  }

  ghost predicate SubOk(slow: bool, sf: Subfacet) {
    && (sf.path == NotInstalled || sf.path == Want(slow))
    && (sf.path != FastPath ==> sf.dpPackets == 0 && sf.dpBytes == 0)
    && (sf.path == NotInstalled ==> sf.flowPackets == 0 && sf.flowBytes == 0)
  }

  ghost predicate SubsOk(f: Facet) {
    forall j | 0 <= j < |f.subfacets| :: SubOk(f.slow, f.subfacets[j])
  }

  /** What the run-time assertions rest on. */
  ghost predicate FacetOk(f: Facet) {
    f.prevPackets <= f.packets && f.prevBytes <= f.bytes && f.prevUsed <= f.used && SubsOk(f)
  }

  /** No reading is ahead of the datapath's own counter. */
  ghost predicate Within(f: Facet) {
    forall j | 0 <= j < |f.subfacets| :: SubWithin(f.subfacets[j])
  }

  ghost predicate SubWithin(sf: Subfacet) {
    sf.dpPackets <= sf.flowPackets && sf.dpBytes <= sf.flowBytes
  }

  /** Every reading has been folded in and cleared. */
  ghost predicate Drained(f: Facet) {
    forall j | 0 <= j < |f.subfacets| :: f.subfacets[j].dpPackets == 0 && f.subfacets[j].dpBytes == 0
  }

  // ---- sums ----

  ghost function Sum<T(!new)>(value: T -> int, s: seq<T>): int {
    if s == [] then 0 else Sum(value, s[..|s| - 1]) + value(s[|s| - 1])
  }

  lemma {:induction false} SumUpdate<T(!new)>(value: T -> int, s: seq<T>, i: nat, x: T)
    requires i < |s|
    ensures Sum(value, s[i := x]) == Sum(value, s) - value(s[i]) + value(x)
  {
    var n := |s| - 1;
    if i == n {
      assert s[i := x][..n] == s[..n];
    } else {
      assert s[i := x][..n] == s[..n][i := x];
      SumUpdate(value, s[..n], i, x);
    }
  }

  lemma SumAppend<T(!new)>(value: T -> int, s: seq<T>, x: T)
    ensures Sum(value, s + [x]) == Sum(value, s) + value(x)
  {
    assert (s + [x])[..|s|] == s;
  }

  lemma {:induction false} SumRemove<T(!new)>(value: T -> int, s: seq<T>, i: nat)
    requires i < |s|
    ensures Sum(value, s[..i] + s[i + 1..]) == Sum(value, s) - value(s[i])
  {
    var n := |s| - 1;
    if i == n {
      assert s[..i] + s[i + 1..] == s[..n];
    } else {
      var r := s[..i] + s[i + 1..];
      assert r[..n - 1] == s[..n][..i] + s[..n][i + 1..];
      assert r[n - 1] == s[n];
      SumRemove(value, s[..n], i);
    }
  }

  lemma {:induction false} SumSame<T(!new)>(value: T -> int, s: seq<T>, t: seq<T>)
    requires |s| == |t| && forall i | 0 <= i < |s| :: value(s[i]) == value(t[i])
    ensures Sum(value, s) == Sum(value, t)
  {
    if s != [] {
      var a, b := s[..|s| - 1], t[..|t| - 1];
      forall i | 0 <= i < |a| ensures value(a[i]) == value(b[i]) { assert a[i] == s[i] && b[i] == t[i]; }
      SumSame(value, a, b);
    }
  }

  /** Packets that only the datapath has counted. Those of a slow-path flow are none: each is also
      sent up and counted there. */
  function Unread(sf: Subfacet): int {
    if sf.path == FastPath then sf.flowPackets - sf.dpPackets else 0
  }

  /** Packets of the facet that no rule has been credited with: unpushed and unread ones. */
  ghost function Held(f: Facet): int {
    f.packets - f.prevPackets + Sum(Unread, f.subfacets)
  }

  lemma {:induction false} SumNonNegative<T(!new)>(value: T -> int, s: seq<T>)
    requires forall i | 0 <= i < |s| :: value(s[i]) >= 0
    ensures Sum(value, s) >= 0
  {
    if s != [] {
      var a := s[..|s| - 1];
      forall i | 0 <= i < |a| ensures value(a[i]) >= 0 { assert a[i] == s[i]; }
      SumNonNegative(value, a);
    }
  }

  lemma HeldBound(f: Facet)
    requires Within(f)
    ensures Held(f) >= f.packets - f.prevPackets
  {
    forall j | 0 <= j < |f.subfacets| ensures Unread(f.subfacets[j]) >= 0 { assert SubWithin(f.subfacets[j]); }
    SumNonNegative(Unread, f.subfacets);
  }

  lemma {:induction false} SumZero<T(!new)>(value: T -> int, s: seq<T>)
    requires forall i | 0 <= i < |s| :: value(s[i]) == 0
    ensures Sum(value, s) == 0
  {
    if s != [] {
      var a := s[..|s| - 1];
      forall i | 0 <= i < |a| ensures value(a[i]) == 0 { assert a[i] == s[i]; }
      SumZero(value, a);
    }
  }

  // ---- the operations on one subfacet ----

  function Max(x: nat, y: nat): nat {
    if x >= y then x else y
  }

  predicate IsMax(m: nat, x: nat, y: nat) {
    m >= x && m >= y && (m == x || m == y)
  }

  /** `subfacet_update_stats` */
  function UpdateStats(f: Facet, j: nat, stats: Stats): Facet
    requires j < |f.subfacets|
  {
    var sf := f.subfacets[j];
    if stats.packets > 0 || stats.used > sf.used then
      f.(subfacets := f.subfacets[j := sf.(used := Max(sf.used, stats.used))], used := Max(f.used, stats.used),
         packets := f.packets + stats.packets, bytes := f.bytes + stats.bytes)
    else f
  }

  /** What `subfacet_reset_dp_stats` leaves of the statistics it is given. */
  function NewSince(sf: Subfacet, stats: Stats): Stats {
    if sf.dpPackets <= stats.packets && sf.dpBytes <= stats.bytes
    then stats.(packets := stats.packets - sf.dpPackets, bytes := stats.bytes - sf.dpBytes)
    else stats
  }

  /** `subfacet_reset_dp_stats` for the subfacet, whose flow has been zeroed or deleted in the datapath. */
  function Cleared(f: Facet, j: nat): Facet
    requires j < |f.subfacets|
  {
    f.(subfacets := f.subfacets[j := f.subfacets[j].(dpPackets := 0, dpBytes := 0, flowPackets := 0, flowBytes := 0)])
  }

  function WithPath(f: Facet, j: nat, path: Path): Facet
    requires j < |f.subfacets|
  {
    f.(subfacets := f.subfacets[j := f.subfacets[j].(path := path)])
  }

  /** `subfacet_uninstall` */
  function Uninstall(f: Facet, j: nat, reply: Reply): (g: Facet)
    requires FacetOk(f) && j < |f.subfacets|
  {
    var sf := f.subfacets[j];
    if sf.path != NotInstalled then
      var g := Cleared(f, j);
      var counted := if reply.ok then UpdateStats(g, j, NewSince(sf, reply.stats)) else g;
      WithPath(counted, j, NotInstalled)
    else
      assert SubOk(f.slow, sf);
      assert sf.dpPackets == 0;
      assert sf.dpBytes == 0;
      f
  }

  /** `subfacet_install` with statistics, and the `subfacet_update_stats` that always follows. */
  function Reinstall(f: Facet, j: nat, reply: Reply): Facet
    requires j < |f.subfacets|
  {
    var sf := f.subfacets[j];
    var g := Cleared(f, j);
    var p := if reply.ok then WithPath(g, j, Want(f.slow)) else g;
    UpdateStats(p, j, NewSince(sf, reply.stats))
  }

  /** The datapath did as asked, and its figures are between the last reading and its counters. */
  ghost predicate Fair(sf: Subfacet, reply: Reply) {
    && reply.ok && sf.dpPackets <= reply.stats.packets <= sf.flowPackets
    && sf.dpBytes <= reply.stats.bytes <= sf.flowBytes
  }

  /** Packets that the datapath counted but does not report in the reply that ends the flow's count. */
  function Unreported(sf: Subfacet, reply: Reply): int {
    sf.flowPackets - reply.stats.packets
  }

  /** How much of the packets reported had been read before; nothing if the figures are out of order. */
  function Read(sf: Subfacet, reply: Reply): nat {
    if sf.dpPackets <= reply.stats.packets && sf.dpBytes <= reply.stats.bytes then sf.dpPackets else 0
  }

  /** The packets new in the reply are added, and if there are any the new bytes are too. */
  ghost predicate TookOver(f: Facet, g: Facet, sf: Subfacet, reply: Reply) {
    && g.packets == f.packets + reply.stats.packets - Read(sf, reply)
    && (g.packets > f.packets ==>
          g.bytes == f.bytes + reply.stats.bytes
                     - if sf.dpPackets <= reply.stats.packets && sf.dpBytes <= reply.stats.bytes then sf.dpBytes else 0)
  }

  /** What uninstalling a subfacet drops: packets of a fast-path flow that are not reported. */
  function Lost(sf: Subfacet, reply: Reply): int {
    if sf.path == FastPath then Unreported(sf, reply) else 0
  }

  /** What uninstalling a subfacet adds although it was counted before: all that is reported of a
      slow-path flow. */
  function Again(sf: Subfacet, reply: Reply): nat {
    if sf.path == SlowPath then reply.stats.packets else 0
  }

  ghost predicate FairOrGone(sf: Subfacet, reply: Reply) {
    sf.path == NotInstalled || Fair(sf, reply)
  }

  /** The facets differ in counters and flags only. */
  ghost predicate Alike(f: Facet, g: Facet) {
    g.rule == f.rule && g.slow == f.slow && |g.subfacets| == |f.subfacets|
    && g.prevPackets == f.prevPackets && g.prevBytes == f.prevBytes && g.prevUsed == f.prevUsed
  }

  /** `g` differs from `f` in the subfacet at `j` only. */
  ghost predicate OthersAlike(f: Facet, g: Facet, j: nat) {
    Alike(f, g) && forall k | 0 <= k < |f.subfacets| && k != j :: g.subfacets[k] == f.subfacets[k]
  }

  lemma UpdateStatsOk(f: Facet, j: nat, stats: Stats)
    requires FacetOk(f) && j < |f.subfacets|
    ensures var g := UpdateStats(f, j, stats);
            && FacetOk(g) && OthersAlike(f, g, j) && Held(g) == Held(f) + stats.packets
            && g.subfacets[j] == f.subfacets[j].(used := g.subfacets[j].used)
            && (if stats.packets > 0 || stats.used > f.subfacets[j].used
                then && g.packets == f.packets + stats.packets && g.bytes == f.bytes + stats.bytes
                     && IsMax(g.used, f.used, stats.used)
                     && IsMax(g.subfacets[j].used, f.subfacets[j].used, stats.used)
                else g == f)
  {
    var g := UpdateStats(f, j, stats);
    forall k | 0 <= k < |g.subfacets| ensures SubOk(g.slow, g.subfacets[k]) { assert SubOk(f.slow, f.subfacets[k]); }
    SumSame(Unread, f.subfacets, g.subfacets);
  }

  lemma ClearedOk(f: Facet, j: nat)
    requires FacetOk(f) && j < |f.subfacets|
    ensures FacetOk(Cleared(f, j)) && Held(Cleared(f, j)) == Held(f) - Unread(f.subfacets[j])
  {
    var g := Cleared(f, j);
    forall k | 0 <= k < |g.subfacets| ensures SubOk(g.slow, g.subfacets[k]) { assert SubOk(f.slow, f.subfacets[k]); }
    SumUpdate(Unread, f.subfacets, j, g.subfacets[j]);
  }

  lemma WithPathOk(f: Facet, j: nat, path: Path)
    requires FacetOk(f) && j < |f.subfacets| && (path == NotInstalled || path == Want(f.slow))
    requires f.subfacets[j].dpPackets == 0 && f.subfacets[j].dpBytes == 0
    requires f.subfacets[j].flowPackets == 0 && f.subfacets[j].flowBytes == 0
    ensures FacetOk(WithPath(f, j, path)) && Held(WithPath(f, j, path)) == Held(f)
  {
    var g := WithPath(f, j, path);
    forall k | 0 <= k < |g.subfacets| ensures SubOk(g.slow, g.subfacets[k]) { assert SubOk(f.slow, f.subfacets[k]); }
    SumSame(Unread, f.subfacets, g.subfacets);
  }

  /** Uninstalling moves the packets of a fast-path flow not read yet into the facet, but for those not
      reported; of a slow-path flow it adds the packets reported, a second time. */
  lemma UninstallOk(f: Facet, j: nat, reply: Reply)
    requires FacetOk(f) && j < |f.subfacets|
    ensures var g, sf := Uninstall(f, j, reply), f.subfacets[j];
            && FacetOk(g) && OthersAlike(f, g, j)
            && g.subfacets[j].path == NotInstalled && g.subfacets[j].dpPackets == 0 && g.subfacets[j].dpBytes == 0
            && SubWithin(g.subfacets[j])
            && (sf.path == NotInstalled ==> g == f)
            && (FairOrGone(sf, reply) ==> Held(g) + Lost(sf, reply) == Held(f) + Again(sf, reply))
            && g.subfacets[j].flowPackets == 0
            && (!reply.ok || sf.path == NotInstalled ==> g.packets == f.packets && g.bytes == f.bytes)
            && (reply.ok && sf.path != NotInstalled ==> TookOver(f, g, sf, reply))
  {
    hide SubsOk, Held;
    var sf := f.subfacets[j];
    SubAt(f, j);
    if sf.path != NotInstalled {
      ClearedOk(f, j);
      var g := Cleared(f, j);
      UpdateStatsOk(g, j, NewSince(sf, reply.stats));
      var counted := if reply.ok then UpdateStats(g, j, NewSince(sf, reply.stats)) else g;
      WithPathOk(counted, j, NotInstalled);
    }
  }

  lemma SubAt(f: Facet, j: nat)
    requires SubsOk(f) && j < |f.subfacets|
    ensures SubOk(f.slow, f.subfacets[j])
  {
  }

  /** So does putting the flow anew with its counters zeroed. */
  lemma ReinstallOk(f: Facet, j: nat, reply: Reply)
    requires FacetOk(f) && j < |f.subfacets| && f.subfacets[j].path == FastPath
    ensures var g, sf := Reinstall(f, j, reply), f.subfacets[j];
            && FacetOk(g) && OthersAlike(f, g, j) && g.subfacets[j].dpPackets == 0 && g.subfacets[j].dpBytes == 0
            && SubWithin(g.subfacets[j]) && g.subfacets[j].flowPackets == 0 && TookOver(f, g, sf, reply)
            && (Fair(sf, reply) ==> Held(g) == Held(f) - Unreported(sf, reply))
  {
    hide SubsOk, Held;
    var sf := f.subfacets[j];
    assert SubOk(f.slow, sf) by { SubAt(f, j); }
    ClearedOk(f, j);
    var g := Cleared(f, j);
    if reply.ok { WithPathOk(g, j, Want(f.slow)); }
    var p := if reply.ok then WithPath(g, j, Want(f.slow)) else g;
    UpdateStatsOk(p, j, NewSince(sf, reply.stats));
  }

  /** A subfacet that is not installed holds nothing unread. */
  lemma DropOk(f: Facet, j: nat)
    requires FacetOk(f) && j < |f.subfacets| && f.subfacets[j].path == NotInstalled
    ensures var g := f.(subfacets := f.subfacets[..j] + f.subfacets[j + 1..]);
            FacetOk(g) && Held(g) == Held(f) && (Within(f) ==> Within(g))
  {
    var g := f.(subfacets := f.subfacets[..j] + f.subfacets[j + 1..]);
    assert SubOk(f.slow, f.subfacets[j]);
    forall k | 0 <= k < |g.subfacets| ensures g.subfacets[k] in f.subfacets { }
    SumRemove(Unread, f.subfacets, j);
  }
}
