/** Translation of OpenFlow actions (`xlate_table_action`, `do_xlate_actions` and the patch-port
    branch of `compose_output_action__` in `ofproto-dpif.c`) over fixed flow tables. */
module Xlate {
  import opened Options
  import opened Flow
  import opened Match
  import opened Tables

  /** `MAX_RESUBMIT_RECURSION` */
  const MAX_RESUBMIT_RECURSION: nat := 64

  /** A flow table: table `table` of bridge `ofproto`. */
  datatype Key = Key(ofproto: nat, table: nat)

  datatype Action =
    | Output(port: nat)
    | SetField(id: nat)
    | DecTtl
    | Resubmit(inPort: Option<nat>, table: nat)
    | GotoTable(table: nat)
    | Exit

  /** One table lookup made by a translation, with the rule found and its actions. */
  datatype Look = Look(key: Key, flow: FlowWords, found: Option<Rule>, acts: seq<Action>)

  /** A packet sent to an ordinary port. */
  datatype Emit = Emit(ofproto: nat, port: nat, flow: FlowWords)

  /** An output port: one that sends nothing, because it does not exist, does not forward or is a patch
      port without a peer on the same datapath; an ordinary one; or a patch port and its peer. */
  datatype Port = Closed | Plain | Patch(ofproto: nat, port: nat)

  /** What becomes of a packet that enters a bridge: it is handled specially (CFM, LACP, STP), refused by
      `may_receive`, looked at but not forwarded because of STP, or processed. */
  datatype Entry = Special | Refused | Blocked | Open

  /** The flow tables, and the parts of the switch that a translation consults. */
  datatype Env = Env(
    lookup: (Key, FlowWords) -> Option<Rule>,
    acts: (Key, Rule) -> seq<Action>,
    miss: (nat, FlowWords) -> Rule,
    missActs: Rule -> seq<Action>,
    port: (nat, nat) -> Port,
    entry: (nat, FlowWords) -> Entry,
    setField: (nat, FlowWords) -> FlowWords,
    expired: FlowWords -> bool,
    decTtl: FlowWords -> FlowWords,
    inPort: FlowWords -> nat,
    withPort: (FlowWords, nat) -> FlowWords,
    crossed: FlowWords -> FlowWords)
  {
    function Look1(k: Key, f: FlowWords): Look {
      var found := lookup(k, f);
      Look(k, f, found, if found.Some? then acts(k, found.value) else [])
    }

    /** The rule that is executed: the one found or, if `mayPacketIn`, the miss rule. */
    function Used(l: Look, mayPacketIn: bool, f: FlowWords): Option<(Rule, seq<Action>)> {
      if l.found.Some? then Some((l.found.value, l.acts))
      else if mayPacketIn then Some((miss(l.key.ofproto, f), missActs(miss(l.key.ofproto, f))))
      else None
    }
  }

  /** The part of `struct xlate_ctx` that decides the outcome. `failed` records that the
      assertion on the order of goto-table was violated, `slow` that a packet was handled specially. */
  datatype Ctx = Ctx(
    recurse: nat, tableId: nat, ofproto: nat, flow: FlowWords, exit: bool, hitLimit: bool, failed: bool, slow: bool,
    out: seq<Emit>, trace: seq<Look>)

  ghost predicate Kept(c: Ctx, r: Ctx) {
    && r.recurse == c.recurse && r.ofproto == c.ofproto && c.trace <= r.trace && c.out <= r.out
    && (c.failed ==> r.failed)
  }

  /** Every lookup in `trace` gives in `e` what it gave when it was made. */
  ghost predicate StillValid(e: Env, trace: seq<Look>) {
    forall l | l in trace :: e.Look1(l.key, l.flow) == l
  }

  /** `xlate_table_action` */
  function XTable(env: Env, c: Ctx, port: nat, table: nat, mayPacketIn: bool): (r: Ctx)
    requires c.recurse <= 64
    ensures Kept(c, r) && r.tableId == c.tableId
    ensures StillValid(env, c.trace) ==> StillValid(env, r.trace)
    decreases 64 - c.recurse, 0, 0, 0
  {
    if c.recurse < 64 then
      var l := env.Look1(Key(c.ofproto, table), env.withPort(c.flow, port));
      var used := env.Used(l, mayPacketIn, c.flow);
      var c1 := c.(trace := c.trace + [l]);
      if used.None? then c1
      else
        XActions(env, c1.(recurse := c.recurse + 1, tableId := table), used.value.1)
        .(recurse := c.recurse, tableId := c.tableId)
    else c.(hitLimit := true)
  }

  /** `compose_output_action__`: through a patch port the packet enters the peer's bridge; where STP
      blocks it there, what it puts out is taken back. */
  function XOutput(env: Env, c: Ctx, port: nat): (r: Ctx)
    requires c.recurse <= 64
    ensures Kept(c, r) && r.tableId == c.tableId
    ensures StillValid(env, c.trace) ==> StillValid(env, r.trace)
    decreases 64 - c.recurse, 0, 1, 0
  {
    match env.port(c.ofproto, port)
    case Closed => c
    case Plain => c.(out := c.out + [Emit(c.ofproto, port, c.flow)])
    case Patch(o, p) =>
      var c1 := c.(ofproto := o, flow := env.withPort(env.crossed(c.flow), p));
      match env.entry(o, c1.flow)
      case Special => c.(slow := true)
      case Refused => c
      case Blocked => XTable(env, c1, p, 0, true).(ofproto := c.ofproto, flow := c.flow, out := c.out)
      case Open => XTable(env, c1, p, 0, true).(ofproto := c.ofproto, flow := c.flow)
  }

  /** `do_xlate_actions`: goto-table continues with the actions of the rule found. */
  function XActions(env: Env, c: Ctx, acts: seq<Action>): (r: Ctx)
    requires c.recurse <= 64
    ensures Kept(c, r)
    ensures StillValid(env, c.trace) ==> StillValid(env, r.trace)
    decreases 64 - c.recurse, 1, if c.tableId < 256 then 256 - c.tableId else 0, |acts|
  {
    if acts == [] || c.exit then c
    else
      match acts[0]
      case Output(port) => XActions(env, XOutput(env, c, port), acts[1..])
      case SetField(id) => XActions(env, c.(flow := env.setField(id, c.flow)), acts[1..])
      case DecTtl =>
        if env.expired(c.flow) then c else XActions(env, c.(flow := env.decTtl(c.flow)), acts[1..])
      case Resubmit(inPort, table) =>
        var p := if inPort.None? then env.inPort(c.flow) else inPort.value;
        var t := if table == 255 then c.tableId else table;
        XActions(env, XTable(env, c, p, t, false), acts[1..])
      case GotoTable(table) =>
        if c.tableId < table < 256 then
          var l := env.Look1(Key(c.ofproto, table), c.flow);
          var used := env.Used(l, true, c.flow);
          XActions(env, c.(tableId := table, trace := c.trace + [l]), used.value.1)
        else c.(failed := true)
      case Exit => XActions(env, c.(exit := true), acts[1..])
  }

  /** `xlate_actions` for a flow that enters bridge `o`: look up table 0 and translate. */
  function Translate(env: Env, o: nat, f: FlowWords): (r: Ctx)
    ensures StillValid(env, r.trace)
  {
    var l := env.Look1(Key(o, 0), f);
    var c := Entering(o, f, l);
    match env.entry(o, f)
    case Special => c.(slow := true)
    case Refused => c
    case Blocked => XActions(env, c, env.Used(l, true, f).value.1).(out := [])
    case Open => XActions(env, c, env.Used(l, true, f).value.1)
  }

  /** The context in which a translation starts, after the lookup in table 0. */
  function Entering(o: nat, f: FlowWords, l: Look): Ctx {
    Ctx(0, 0, o, f, false, false, false, false, [], [l])
  }

  // ---- the goto-table assertion ----

  /** Every goto-table in `acts` leads from `table` to a higher table. */
  ghost predicate GotosRise(acts: seq<Action>, table: nat) {
    forall a | a in acts && a.GotoTable? :: table < a.table < 256
  }

  /** Flow tables as `ofproto.c` admits them: a rule goes on to higher tables only, and the
      miss rules go nowhere. */
  ghost predicate WellFormed(env: Env) {
    && (forall k: Key, r: Rule :: GotosRise(env.acts(k, r), k.table))
    && (forall r: Rule, table: nat :: GotosRise(env.missActs(r), table))
  }

  lemma UsedRises(env: Env, k: Key, f: FlowWords, mayPacketIn: bool, g: FlowWords)
    requires WellFormed(env)
    ensures var used := env.Used(env.Look1(k, f), mayPacketIn, g);
            used.Some? ==> GotosRise(used.value.1, k.table)
  {
    hide GotosRise;
  }

  lemma {:induction false} TableNeverFails(env: Env, c: Ctx, port: nat, table: nat, mayPacketIn: bool)
    requires c.recurse <= 64 && WellFormed(env) && !c.failed
    ensures !XTable(env, c, port, table, mayPacketIn).failed
    decreases 64 - c.recurse, 0, 0, 0
  {
    hide GotosRise, WellFormed;
    if c.recurse < 64 {
      var l := env.Look1(Key(c.ofproto, table), env.withPort(c.flow, port));
      UsedRises(env, l.key, l.flow, mayPacketIn, c.flow);
      var used := env.Used(l, mayPacketIn, c.flow);
      if used.Some? {
        ActionsNeverFail(env, c.(trace := c.trace + [l], recurse := c.recurse + 1, tableId := table), used.value.1);
      }
    }
  }

  lemma {:induction false} OutputNeverFails(env: Env, c: Ctx, port: nat)
    requires c.recurse <= 64 && WellFormed(env) && !c.failed
    ensures !XOutput(env, c, port).failed
    decreases 64 - c.recurse, 0, 1, 0
  {
    hide GotosRise, WellFormed;
    match env.port(c.ofproto, port)
    case Patch(o, p) =>
      TableNeverFails(env, c.(ofproto := o, flow := env.withPort(env.crossed(c.flow), p)), p, 0, true);
    case _ =>
  }

  lemma RisesOn(acts: seq<Action>, table: nat)
    requires GotosRise(acts, table) && acts != []
    ensures GotosRise(acts[1..], table)
    ensures acts[0].GotoTable? ==> table < acts[0].table < 256
  {
  }

  /** The run-time assertion on goto-table never fails. */
  lemma {:induction false} ActionsNeverFail(env: Env, c: Ctx, acts: seq<Action>)
    requires c.recurse <= 64 && WellFormed(env) && !c.failed && GotosRise(acts, c.tableId)
    ensures !XActions(env, c, acts).failed
    decreases 64 - c.recurse, 1, if c.tableId < 256 then 256 - c.tableId else 0, |acts|
  {
    hide GotosRise, WellFormed;
    if acts != [] && !c.exit {
      RisesOn(acts, c.tableId);
      match acts[0]
      case Output(port) =>
        OutputNeverFails(env, c, port);
        ActionsNeverFail(env, XOutput(env, c, port), acts[1..]);
      case SetField(id) => ActionsNeverFail(env, c.(flow := env.setField(id, c.flow)), acts[1..]);
      case DecTtl =>
        if !env.expired(c.flow) { ActionsNeverFail(env, c.(flow := env.decTtl(c.flow)), acts[1..]); }
      case Resubmit(inPort, table) =>
        var p := if inPort.None? then env.inPort(c.flow) else inPort.value;
        var t := if table == 255 then c.tableId else table;
        TableNeverFails(env, c, p, t, false);
        ActionsNeverFail(env, XTable(env, c, p, t, false), acts[1..]);
      case GotoTable(table) =>
        var l := env.Look1(Key(c.ofproto, table), c.flow);
        UsedRises(env, l.key, c.flow, true, c.flow);
        ActionsNeverFail(env, c.(tableId := table, trace := c.trace + [l]), env.Used(l, true, c.flow).value.1);
      case Exit => ActionsNeverFail(env, c.(exit := true), acts[1..]);
    }
  }

  // ---- a translation depends on nothing but its lookups ----

  /** `e` differs from `env` in its flow tables only. */
  ghost predicate SameSwitch(env: Env, e: Env) {
    && e.miss == env.miss && e.missActs == env.missActs && e.port == env.port && e.entry == env.entry
    && e.setField == env.setField
    && e.expired == env.expired && e.decTtl == env.decTtl && e.inPort == env.inPort
    && e.withPort == env.withPort && e.crossed == env.crossed
  }

  lemma PrefixStillValid(e: Env, a: seq<Look>, b: seq<Look>)
    requires a <= b && StillValid(e, b)
    ensures StillValid(e, a)
  {
    forall l | l in a ensures l in b { var i :| 0 <= i < |a| && a[i] == l; assert b[i] == l; }
  }

  lemma LastStillValid(e: Env, env: Env, a: seq<Look>, l: Look, b: seq<Look>)
    requires a + [l] <= b && StillValid(e, b) && SameSwitch(env, e)
    ensures e.Look1(l.key, l.flow) == l
    ensures forall m: bool, f: FlowWords :: e.Used(l, m, f) == env.Used(l, m, f)
  {
    assert (a + [l])[|a|] == l;
    assert b[|a|] == l && l in b;
  }

  lemma {:induction false} TableDetermined(env: Env, e: Env, c: Ctx, port: nat, table: nat, mayPacketIn: bool)
    requires c.recurse <= 64 && SameSwitch(env, e) && StillValid(e, XTable(env, c, port, table, mayPacketIn).trace)
    ensures XTable(e, c, port, table, mayPacketIn) == XTable(env, c, port, table, mayPacketIn)
    decreases 64 - c.recurse, 0, 0, 0
  {
    hide StillValid, Env.Look1, Env.Used;
    if c.recurse < 64 {
      var l := env.Look1(Key(c.ofproto, table), env.withPort(c.flow, port));
      assert l.key == Key(c.ofproto, table) && l.flow == env.withPort(c.flow, port) by {
        LookFields(env, Key(c.ofproto, table), env.withPort(c.flow, port));
      }
      LastStillValid(e, env, c.trace, l, XTable(env, c, port, table, mayPacketIn).trace);
      var used := env.Used(l, mayPacketIn, c.flow);
      if used.Some? {
        ActionsDetermined(env, e, c.(trace := c.trace + [l], recurse := c.recurse + 1, tableId := table), used.value.1);
      }
    }
  }

  lemma LookFields(env: Env, k: Key, f: FlowWords)
    ensures env.Look1(k, f).key == k && env.Look1(k, f).flow == f
    ensures forall g: FlowWords :: env.Used(env.Look1(k, f), true, g).Some?
  {
  }

  lemma {:induction false} OutputDetermined(env: Env, e: Env, c: Ctx, port: nat)
    requires c.recurse <= 64 && SameSwitch(env, e) && StillValid(e, XOutput(env, c, port).trace)
    ensures XOutput(e, c, port) == XOutput(env, c, port)
    decreases 64 - c.recurse, 0, 1, 0
  {
    hide StillValid;
    match env.port(c.ofproto, port)
    case Patch(o, p) =>
      var c1 := c.(ofproto := o, flow := env.withPort(env.crossed(c.flow), p));
      if env.entry(o, c1.flow).Open? || env.entry(o, c1.flow).Blocked? { TableDetermined(env, e, c1, p, 0, true); }
    case _ =>
  }

  lemma {:induction false} ActionsDetermined(env: Env, e: Env, c: Ctx, acts: seq<Action>)
    requires c.recurse <= 64 && SameSwitch(env, e) && StillValid(e, XActions(env, c, acts).trace)
    ensures XActions(e, c, acts) == XActions(env, c, acts)
    decreases 64 - c.recurse, 1, if c.tableId < 256 then 256 - c.tableId else 0, |acts|
  {
    hide StillValid, Env.Look1, Env.Used;
    if acts != [] && !c.exit {
      var all := XActions(env, c, acts).trace;
      match acts[0]
      case Output(port) =>
        var d := XOutput(env, c, port);
        PrefixStillValid(e, d.trace, all);
        OutputDetermined(env, e, c, port);
        ActionsDetermined(env, e, d, acts[1..]);
      case SetField(id) => ActionsDetermined(env, e, c.(flow := env.setField(id, c.flow)), acts[1..]);
      case DecTtl =>
        if !env.expired(c.flow) { ActionsDetermined(env, e, c.(flow := env.decTtl(c.flow)), acts[1..]); }
      case Resubmit(inPort, table) =>
        var p := if inPort.None? then env.inPort(c.flow) else inPort.value;
        var t := if table == 255 then c.tableId else table;
        var d := XTable(env, c, p, t, false);
        PrefixStillValid(e, d.trace, all);
        TableDetermined(env, e, c, p, t, false);
        ActionsDetermined(env, e, d, acts[1..]);
      case GotoTable(table) =>
        if c.tableId < table < 256 {
          var l := env.Look1(Key(c.ofproto, table), c.flow);
          LookFields(env, Key(c.ofproto, table), c.flow);
          LookFields(e, Key(c.ofproto, table), c.flow);
          LastStillValid(e, env, c.trace, l, all);
          ActionsDetermined(env, e, c.(tableId := table, trace := c.trace + [l]), env.Used(l, true, c.flow).value.1);
        }
      case Exit => ActionsDetermined(env, e, c.(exit := true), acts[1..]);
    }
  }

  /** If every lookup of a translation still gives the same rule with the same actions, then
      translating again gives the same outcome. */
  lemma TranslationDetermined(env: Env, e: Env, o: nat, f: FlowWords)
    requires SameSwitch(env, e) && StillValid(e, Translate(env, o, f).trace)
    ensures Translate(e, o, f) == Translate(env, o, f)
  {
    hide StillValid, XActions, Env.Look1, Env.Used;
    var l := env.Look1(Key(o, 0), f);
    LookFields(env, Key(o, 0), f);
    LookFields(e, Key(o, 0), f);
    LastStillValid(e, env, [], l, Translate(env, o, f).trace);
    if env.entry(o, f).Open? || env.entry(o, f).Blocked? {
      ActionsDetermined(env, e, Entering(o, f, l), env.Used(l, true, f).value.1);
    }
  }
}
