/** What a translation sends, and where it looks. */
module Emissions {
  import opened Options
  import opened Flow
  import opened Match
  import opened Xlate

  // ---- every packet sent is asked for ----

  /** The packet goes out of an ordinary port. */
  predicate OnPlain(env: Env, e: Emit) {
    env.port(e.ofproto, e.port) == Plain
  }

  /** An action to output on that port is among those of a rule looked up in that bridge, or of its miss
      rule. */
  ghost predicate RunAt(env: Env, trace: seq<Look>, e: Emit) {
    exists l :: l in trace && l.key.ofproto == e.ofproto && Asks(env, l, e)
  }

  ghost predicate Asks(env: Env, l: Look, e: Emit) {
    Output(e.port) in l.acts || exists f :: Output(e.port) in env.missActs(env.miss(l.key.ofproto, f))
  }

  /** What has been sent since `c`, in `r`. */
  function Sent(c: Ctx, r: Ctx): seq<Emit> {
    if |c.out| <= |r.out| then r.out[|c.out|..] else []
  }

  ghost predicate AllRunAt(env: Env, trace: seq<Look>, sent: seq<Emit>) {
    forall e | e in sent :: OnPlain(env, e) && RunAt(env, trace, e)
  }

  ghost predicate AllNamed(env: Env, o: nat, acts: seq<Action>, trace: seq<Look>, sent: seq<Emit>) {
    forall e | e in sent ::
      OnPlain(env, e) && ((e.ofproto == o && Output(e.port) in acts) || RunAt(env, trace, e))
  }

  lemma RunAtMore(env: Env, a: seq<Look>, b: seq<Look>, e: Emit)
    requires RunAt(env, a, e) && a <= b
    ensures RunAt(env, b, e)
  {
    hide Asks;
    var l :| l in a && l.key.ofproto == e.ofproto && Asks(env, l, e);
    var i :| 0 <= i < |a| && a[i] == l;
    assert b[i] == l;
  }

  lemma SentTwice(c: Ctx, m: Ctx, r: Ctx)
    requires c.out <= m.out <= r.out
    ensures Sent(c, r) == Sent(c, m) + Sent(m, r)
  {
  }

  lemma {:induction false} TableEmits(env: Env, c: Ctx, port: nat, table: nat, mayPacketIn: bool)
    requires c.recurse <= 64
    ensures var r := XTable(env, c, port, table, mayPacketIn); AllRunAt(env, r.trace, Sent(c, r))
    decreases 64 - c.recurse, 0, 0, 0
  {
    hide XActions, AllNamed, StillValid, Env.Look1, Env.Used;
    if c.recurse < 64 {
      var l := env.Look1(Key(c.ofproto, table), env.withPort(c.flow, port));
      var used := env.Used(l, mayPacketIn, c.flow);
      if used.Some? {
        var c1 := c.(trace := c.trace + [l], recurse := c.recurse + 1, tableId := table);
        ActionsEmit(env, c1, used.value.1);
        var r := XActions(env, c1, used.value.1);
        LookAsks(env, Key(c.ofproto, table), env.withPort(c.flow, port), mayPacketIn, c.flow);
        assert l in r.trace by { assert c1.trace[|c.trace|] == l && r.trace[|c.trace|] == l; }
        NamedIsRun(env, c.ofproto, used.value.1, r.trace, Sent(c1, r), l);
        assert Sent(c, XTable(env, c, port, table, mayPacketIn)) == Sent(c1, r);
      }
    }
  }

  /** The actions that are run after a lookup are those of the rule found or of the miss rule. */
  lemma LookAsks(env: Env, k: Key, f: FlowWords, mayPacketIn: bool, g: FlowWords)
    ensures var l := env.Look1(k, f);
            && l.key == k && l.flow == f && l.found == env.lookup(k, f)
            && (l.found.Some? ==> l.acts == env.acts(k, l.found.value))
            && env.Used(l, mayPacketIn, g)
               == (if l.found.Some? then Some((l.found.value, env.acts(k, l.found.value)))
                   else if mayPacketIn then Some((env.miss(k.ofproto, g), env.missActs(env.miss(k.ofproto, g))))
                   else None)
            && (env.Used(l, mayPacketIn, g).Some? ==>
                  forall e: Emit | Output(e.port) in env.Used(l, mayPacketIn, g).value.1 :: Asks(env, l, e))
  {
  }

  lemma NamedIsRun(env: Env, o: nat, acts: seq<Action>, trace: seq<Look>, sent: seq<Emit>, l: Look)
    requires AllNamed(env, o, acts, trace, sent) && l in trace && l.key.ofproto == o
    requires forall e: Emit | Output(e.port) in acts :: Asks(env, l, e)
    ensures AllRunAt(env, trace, sent)
  {
    hide Asks, OnPlain;
  }

  lemma {:induction false} OutputEmits(env: Env, c: Ctx, port: nat)
    requires c.recurse <= 64
    ensures var r := XOutput(env, c, port);
            match env.port(c.ofproto, port)
            case Closed => r == c
            case Plain => r == c.(out := c.out + [Emit(c.ofproto, port, c.flow)])
            case Patch(_, _) => AllRunAt(env, r.trace, Sent(c, r)) && r.flow == c.flow
    decreases 64 - c.recurse, 0, 1, 0
  {
    hide XTable, StillValid, RunAt;
    match env.port(c.ofproto, port)
    case Patch(o, p) =>
      var c1 := c.(ofproto := o, flow := env.withPort(env.crossed(c.flow), p));
      TableEmits(env, c1, p, 0, true);
      var r := XTable(env, c1, p, 0, true);
      assert Sent(c, r) == Sent(c1, r);
    case _ =>
  }

  /** Every packet sent goes out of an ordinary port that an output action names: one of the given
      actions, in this bridge, or one of a rule looked up since. */
  lemma {:induction false} ActionsEmit(env: Env, c: Ctx, acts: seq<Action>)
    requires c.recurse <= 64
    ensures var r := XActions(env, c, acts); AllNamed(env, c.ofproto, acts, r.trace, Sent(c, r))
    decreases 64 - c.recurse, 1, if c.tableId < 256 then 256 - c.tableId else 0, |acts|
  {
    hide XTable, XOutput, StillValid, Env.Look1, Env.Used, RunAt, OnPlain;
    if acts != [] && !c.exit {
      var r := XActions(env, c, acts);
      match acts[0] {
        case Output(port) =>
          ActionsEmit(env, XOutput(env, c, port), acts[1..]);
          OutputIsNamed(env, c, port);
          NamedThen(env, c, XOutput(env, c, port), r, acts);
        case SetField(id) =>
          ActionsEmit(env, c.(flow := env.setField(id, c.flow)), acts[1..]);
          NamedThen(env, c, c.(flow := env.setField(id, c.flow)), r, acts);
        case DecTtl =>
          if !env.expired(c.flow) {
            ActionsEmit(env, c.(flow := env.decTtl(c.flow)), acts[1..]);
            NamedThen(env, c, c.(flow := env.decTtl(c.flow)), r, acts);
          }
        case Resubmit(inPort, table) =>
          var p := if inPort.None? then env.inPort(c.flow) else inPort.value;
          var t := if table == 255 then c.tableId else table;
          TableEmits(env, c, p, t, false);
          var m := XTable(env, c, p, t, false);
          ActionsEmit(env, m, acts[1..]);
          NamedThen(env, c, m, r, acts);
        case GotoTable(table) =>
          if c.tableId < table < 256 {
            GotoEmits(env, c, acts, table);
          }
        case Exit =>
          ActionsEmit(env, c.(exit := true), acts[1..]);
          NamedThen(env, c, c.(exit := true), r, acts);
      }
    }
  }

  lemma {:induction false} GotoEmits(env: Env, c: Ctx, acts: seq<Action>, table: nat)
    requires c.recurse <= 64 && acts != [] && !c.exit && acts[0] == GotoTable(table) && c.tableId < table < 256
    ensures var r := XActions(env, c, acts); AllNamed(env, c.ofproto, acts, r.trace, Sent(c, r))
    decreases 64 - c.recurse, 1, 256 - c.tableId, 0
  {
    hide XTable, XOutput, StillValid, Env.Look1, Env.Used, RunAt, OnPlain, Asks;
    var l := env.Look1(Key(c.ofproto, table), c.flow);
    var used := env.Used(l, true, c.flow);
    LookAsks(env, Key(c.ofproto, table), c.flow, true, c.flow);
    var c1 := c.(tableId := table, trace := c.trace + [l]);
    ActionsEmit(env, c1, used.value.1);
    var r := XActions(env, c1, used.value.1);
    assert l in r.trace by { assert c1.trace[|c.trace|] == l && r.trace[|c.trace|] == l; }
    NamedIsRun(env, c.ofproto, used.value.1, r.trace, Sent(c1, r), l);
  }

  lemma {:induction false} OutputIsNamed(env: Env, c: Ctx, port: nat)
    requires c.recurse <= 64
    ensures var m := XOutput(env, c, port);
            forall e | e in Sent(c, m) ::
              OnPlain(env, e) && (RunAt(env, m.trace, e) || (e.ofproto == c.ofproto && e.port == port))
    decreases 64 - c.recurse, 0, 2, 0
  {
    hide XOutput, RunAt, StillValid;
    OutputEmits(env, c, port);
  }

  /** What one action sent is named, and what the others send is named: then all is. */
  lemma NamedThen(env: Env, c: Ctx, m: Ctx, r: Ctx, acts: seq<Action>)
    requires acts != [] && c.out <= m.out <= r.out && m.trace <= r.trace && m.ofproto == c.ofproto
    requires forall e | e in Sent(c, m) ::
               OnPlain(env, e) && (RunAt(env, m.trace, e) || (e.ofproto == c.ofproto && acts[0] == Output(e.port)))
    requires AllNamed(env, m.ofproto, acts[1..], r.trace, Sent(m, r))
    ensures AllNamed(env, c.ofproto, acts, r.trace, Sent(c, r))
  {
    hide RunAt, OnPlain;
    SentTwice(c, m, r);
    forall e | e in Sent(c, r)
      ensures OnPlain(env, e) && ((e.ofproto == c.ofproto && Output(e.port) in acts) || RunAt(env, r.trace, e))
    {
      if e in Sent(c, m) {
        if RunAt(env, m.trace, e) { RunAtMore(env, m.trace, r.trace, e); }
      } else {
        assert e in Sent(m, r);
      }
    }
  }

  // ---- exactly what is sent ----

  /** Actions that neither look up another table nor cross a patch port. */
  predicate Straight(env: Env, o: nat, acts: seq<Action>) {
    forall a | a in acts ::
      match a
      case Output(port) => !env.port(o, port).Patch?
      case SetField(_) => true
      case DecTtl => true
      case Exit => true
      case _ => false
  }

  /** The packets such actions send, in order: one for each output on an ordinary port, with the flow as
      the actions before have made it, up to an exit or an expired TTL. */
  function Listed(env: Env, o: nat, f: FlowWords, acts: seq<Action>): seq<Emit>
    decreases |acts|
  {
    if acts == [] then []
    else
      match acts[0]
      case Output(port) => (if env.port(o, port).Plain? then [Emit(o, port, f)] else []) + Listed(env, o, f, acts[1..])
      case SetField(id) => Listed(env, o, env.setField(id, f), acts[1..])
      case DecTtl => if env.expired(f) then [] else Listed(env, o, env.decTtl(f), acts[1..])
      case _ => []
  }

  /** The flow after such actions. */
  function FlowAfter(env: Env, f: FlowWords, acts: seq<Action>): FlowWords
    decreases |acts|
  {
    if acts == [] then f
    else
      match acts[0]
      case Output(_) => FlowAfter(env, f, acts[1..])
      case SetField(id) => FlowAfter(env, env.setField(id, f), acts[1..])
      case DecTtl => if env.expired(f) then f else FlowAfter(env, env.decTtl(f), acts[1..])
      case _ => f
  }

  lemma {:induction false} StraightLine(env: Env, c: Ctx, acts: seq<Action>)
    requires c.recurse <= 64 && !c.exit && Straight(env, c.ofproto, acts)
    ensures var r := XActions(env, c, acts);
            && r.out == c.out + Listed(env, c.ofproto, c.flow, acts) && r.flow == FlowAfter(env, c.flow, acts)
            && r.trace == c.trace && r.tableId == c.tableId && r.slow == c.slow && r.failed == c.failed
    decreases |acts|
  {
    hide XTable, StillValid;
    if acts != [] {
      assert acts[0] in acts;
      assert Straight(env, c.ofproto, acts[1..]) by { StraightRest(env, c.ofproto, acts); }
      match acts[0] {
        case Output(port) =>
          var m := XOutput(env, c, port);
          assert m.out == c.out + (if env.port(c.ofproto, port).Plain? then [Emit(c.ofproto, port, c.flow)] else []);
          StraightLine(env, m, acts[1..]);
        case SetField(id) => StraightLine(env, c.(flow := env.setField(id, c.flow)), acts[1..]);
        case DecTtl => if !env.expired(c.flow) { StraightLine(env, c.(flow := env.decTtl(c.flow)), acts[1..]); }
        case Exit => ExitStops(env, c.(exit := true), acts[1..]);
      }
    }
  }

  lemma StraightRest(env: Env, o: nat, acts: seq<Action>)
    requires acts != [] && Straight(env, o, acts)
    ensures Straight(env, o, acts[1..])
  {
    forall a | a in acts[1..] ensures a in acts { }
  }

  /** After an exit nothing more is done, in this table or further out. */
  lemma ExitStops(env: Env, c: Ctx, acts: seq<Action>)
    requires c.recurse <= 64 && c.exit
    ensures XActions(env, c, acts) == c
  {
    hide XTable, XOutput, StillValid;
  }

  // ---- where it looks ----

  /** A table is looked up with the port given, under the recursion limit and no further. The rule found,
      or the miss rule where that is allowed, runs on the flow as it was; with neither nothing else
      happens. */
  lemma TableLooks(env: Env, c: Ctx, port: nat, table: nat, mayPacketIn: bool)
    requires c.recurse <= 64
    ensures c.recurse == 64 ==> XTable(env, c, port, table, mayPacketIn) == c.(hitLimit := true)
    ensures var k, r := Key(c.ofproto, table), XTable(env, c, port, table, mayPacketIn);
            var found := env.lookup(k, env.withPort(c.flow, port));
            c.recurse < 64 ==>
              && |c.trace| < |r.trace|
              && r.trace[|c.trace|] == Look(k, env.withPort(c.flow, port), found,
                                            if found.Some? then env.acts(k, found.value) else [])
              && (found.None? && !mayPacketIn ==> r == c.(trace := r.trace) && |r.trace| == |c.trace| + 1)
              && (found.Some? && !c.exit && Straight(env, c.ofproto, env.acts(k, found.value)) ==>
                    && r.out == c.out + Listed(env, c.ofproto, c.flow, env.acts(k, found.value))
                    && r.flow == FlowAfter(env, c.flow, env.acts(k, found.value)))
              && (var miss := env.missActs(env.miss(c.ofproto, c.flow));
                  found.None? && mayPacketIn && !c.exit && Straight(env, c.ofproto, miss) ==>
                    r.out == c.out + Listed(env, c.ofproto, c.flow, miss) && r.flow == FlowAfter(env, c.flow, miss))
  {
    hide XActions, StillValid, Straight, Listed, FlowAfter;
    if c.recurse < 64 {
      var l := env.Look1(Key(c.ofproto, table), env.withPort(c.flow, port));
      var used := env.Used(l, mayPacketIn, c.flow);
      if used.Some? {
        var c1 := c.(trace := c.trace + [l], recurse := c.recurse + 1, tableId := table);
        var r := XActions(env, c1, used.value.1);
        assert c1.trace[|c.trace|] == l && r.trace[|c.trace|] == l;
        if !c.exit && Straight(env, c.ofproto, used.value.1) { StraightLine(env, c1, used.value.1); }
      }
    }
  }

  /** A resubmission looks up the port and the table it names; the input port and the current table where
      it names none. */
  lemma ResubmitLooks(env: Env, c: Ctx, acts: seq<Action>, inPort: Option<nat>, table: nat)
    requires c.recurse < 64 && !c.exit && acts != [] && acts[0] == Resubmit(inPort, table)
    ensures var r := XActions(env, c, acts);
            var p := if inPort.Some? then inPort.value else env.inPort(c.flow);
            var k := Key(c.ofproto, if table == 255 then c.tableId else table);
            |c.trace| < |r.trace| && r.trace[|c.trace|] == env.Look1(k, env.withPort(c.flow, p))
  {
    hide XTable, XOutput, StillValid;
    var p := if inPort.None? then env.inPort(c.flow) else inPort.value;
    var t := if table == 255 then c.tableId else table;
    TableLooks(env, c, p, t, false);
    assert XTable(env, c, p, t, false).trace <= XActions(env, c, acts).trace;
  }

  /** Goto-table looks up the flow in hand in the later table it names, and the actions after it are not
      run; a table that is not later fails the assertion. */
  lemma GotoLooks(env: Env, c: Ctx, acts: seq<Action>, table: nat)
    requires c.recurse <= 64 && !c.exit && acts != [] && acts[0] == GotoTable(table) && table < 256
    ensures table <= c.tableId ==> XActions(env, c, acts) == c.(failed := true)
    ensures var r, l := XActions(env, c, acts), env.Look1(Key(c.ofproto, table), c.flow);
            c.tableId < table ==>
              && |c.trace| < |r.trace| && r.trace[|c.trace|] == l
              && (Straight(env, c.ofproto, env.Used(l, true, c.flow).value.1) ==>
                    r.out == c.out + Listed(env, c.ofproto, c.flow, env.Used(l, true, c.flow).value.1))
  {
    hide XTable, XOutput, StillValid, Straight, Listed, FlowAfter, Env.Look1;
    if c.tableId < table {
      var l := env.Look1(Key(c.ofproto, table), c.flow);
      var used := env.Used(l, true, c.flow);
      var c1 := c.(tableId := table, trace := c.trace + [l]);
      var r := XActions(env, c1, used.value.1);
      assert c1.trace[|c.trace|] == l && r.trace[|c.trace|] == l;
      if Straight(env, c.ofproto, used.value.1) { StraightLine(env, c1, used.value.1); }
    }
  }

  /** Through a patch port the packet enters table 0 of the peer's bridge by the peer's port. Afterwards
      flow and bridge are as before; what a packet blocked by STP would send is not sent. */
  lemma PatchEnters(env: Env, c: Ctx, port: nat)
    requires c.recurse < 64 && env.port(c.ofproto, port).Patch?
    ensures var r, patch := XOutput(env, c, port), env.port(c.ofproto, port);
            var f := env.withPort(env.crossed(c.flow), patch.port);
            && r.flow == c.flow && r.ofproto == c.ofproto
            && match env.entry(patch.ofproto, f)
               case Special => r == c.(slow := true)
               case Refused => r == c
               case Blocked => r.out == c.out && |r.trace| > |c.trace|
                               && r.trace[|c.trace|] == env.Look1(Key(patch.ofproto, 0), env.withPort(f, patch.port))
               case Open => && |r.trace| > |c.trace|
                            && r.trace[|c.trace|] == env.Look1(Key(patch.ofproto, 0), env.withPort(f, patch.port))
  {
    hide XTable, StillValid, Listed, FlowAfter, Straight;
    var patch := env.port(c.ofproto, port);
    var c1 := c.(ofproto := patch.ofproto, flow := env.withPort(env.crossed(c.flow), patch.port));
    TableLooks(env, c1, patch.port, 0, true);
  }

  /** A translation starts with table 0. A special packet is only marked, a refused one does nothing, one
      that STP blocks sends nothing. Otherwise straight-line actions send just what they list. */
  lemma TranslationSends(env: Env, o: nat, f: FlowWords)
    ensures var r, l := Translate(env, o, f), env.Look1(Key(o, 0), f);
            var acts := env.Used(l, true, f).value.1;
            && |r.trace| > 0 && r.trace[0] == l && (!env.entry(o, f).Open? ==> r.out == [])
            && (env.entry(o, f).Special? ==> r == Entering(o, f, l).(slow := true))
            && (env.entry(o, f).Refused? ==> r == Entering(o, f, l))
            && (env.entry(o, f).Open? && Straight(env, o, acts) ==> r.out == Listed(env, o, f, acts))
            && AllNamed(env, o, acts, r.trace, r.out)
  {
    hide XActions, StillValid, Straight, Listed, FlowAfter, RunAt, OnPlain, Env.Look1;
    var l := env.Look1(Key(o, 0), f);
    var acts := env.Used(l, true, f).value.1;
    var c := Entering(o, f, l);
    var r := XActions(env, c, acts);
    assert r.trace[0] == c.trace[0];
    ActionsEmit(env, c, acts);
    assert Sent(c, r) == r.out;
    if Straight(env, o, acts) { StraightLine(env, c, acts); }
  }
}
