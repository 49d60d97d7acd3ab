/** The same translation, on a context that is updated in place and with rules pinned against
    eviction while their actions run. */
module Translator {
  import opened Options
  import opened Flow
  import opened Match
  import opened Tables
  import opened Xlate

  class XlateCtx {
    const env: Env
    var recurse: nat
    var tableId: nat
    var ofproto: nat
    var flow: FlowWords
    var exit: bool
    var hitLimit: bool
    var failed: bool
    var slow: bool
    var out: seq<Emit>
    var trace: seq<Look>
    /** `ctx->rule` */
    var rule: Option<Rule>
    /** The rules whose `evictable` flag is false. */
    var pinned: set<nat>

    function View(): Ctx
      reads this
    {
      Ctx(recurse, tableId, ofproto, flow, exit, hitLimit, failed, slow, out, trace)
    }

    constructor (env: Env, o: nat, f: FlowWords, pinned: set<nat>)
      ensures this.env == env && this.pinned == pinned && rule.None?
      ensures View() == Ctx(0, 0, o, f, false, false, false, false, [], [])
    {
      this.env := env;
      recurse, tableId, ofproto, flow := 0, 0, o, f;
      exit, hitLimit, failed, slow := false, false, false, false;
      out, trace := [], [];
      rule := None;
      this.pinned := pinned;
    }

    /** `xlate_table_action`: on return, the recursion depth, the table, the rule and every
        rule's evictable flag are what they were. */
    method XlateTableAction(port: nat, table: nat, mayPacketIn: bool)
      requires recurse <= 64
      modifies this
      ensures View() == XTable(env, old(View()), port, table, mayPacketIn)
      ensures recurse == old(recurse) && tableId == old(tableId)
      ensures rule == old(rule) && pinned == old(pinned)
      decreases 64 - recurse, 0, 1
    {
      hide XTable, XActions, XOutput, Env.Look1, Env.Used, StillValid, Kept;
      TableStep(env, View(), port, table, mayPacketIn);
      if recurse < 64 {
        var oldTable := tableId;
        tableId := table;
        var l := LookUp(port);
        var used := env.Used(l, mayPacketIn, flow);
        if used.Some? {
          RunRule(used.value.0, used.value.1);
        }
        tableId := oldTable;
      } else {
        hitLimit := true;
      }
    }

    /** The part of `xlate_table_action` that looks up the flow with another input port. */
    method LookUp(port: nat) returns (l: Look)
      modifies this
      ensures l == env.Look1(Key(ofproto, tableId), env.withPort(flow, port))
      ensures View() == old(View()).(trace := old(trace) + [l]) && rule == old(rule) && pinned == old(pinned)
    {
      var oldFlow := flow;
      flow := env.withPort(flow, port);
      l := env.Look1(Key(ofproto, tableId), flow);
      trace := trace + [l];
      flow := oldFlow;
    }

    /** The part of `xlate_table_action` that runs the actions of a rule one level deeper. */
    method RunRule(r: Rule, acts: seq<Action>)
      requires recurse < 64
      modifies this
      ensures View() == XActions(env, old(View()).(recurse := old(recurse) + 1), acts).(recurse := old(recurse))
      ensures recurse == old(recurse)
      ensures rule == old(rule) && pinned == old(pinned)
      decreases 64 - recurse, 0, 0
    {
      hide XActions, StillValid;
      var oldRule := rule;
      recurse := recurse + 1;
      rule := Some(r);
      DoXlateActions(acts);
      rule := oldRule;
      recurse := recurse - 1;
    }

    /** `compose_output_action__` */
    method ComposeOutputAction(port: nat)
      requires recurse <= 64
      modifies this
      ensures View() == XOutput(env, old(View()), port)
      ensures rule == old(rule) && pinned == old(pinned)
      decreases 64 - recurse, 0, 2
    {
      hide XTable, StillValid;
      var kind := env.port(ofproto, port);
      if kind.Closed? {
        return;
      }
      if kind.Plain? {
        out := out + [Emit(ofproto, port, flow)];
        return;
      }
      var oldFlow, oldOfproto := flow, ofproto;
      ofproto := kind.ofproto;
      flow := env.withPort(env.crossed(flow), kind.port);
      var entry := env.entry(ofproto, flow);
      if entry.Special? {
        slow := true;
      } else if !entry.Refused? {
        var oldOut := out;
        XlateTableAction(kind.port, 0, true);
        if entry.Blocked? {
          out := oldOut;
        }
      }
      flow := oldFlow;
      ofproto := oldOfproto;
    }

    /** The actions that neither jump nor end the loop. */
    method OneAction(a: Action)
      requires recurse <= 64 && !exit && Continues(env, View(), a)
      modifies this
      ensures View() == XOne(env, old(View()), a) && recurse == old(recurse)
      ensures rule == old(rule) && pinned == old(pinned)
      decreases 64 - recurse, 0, 3
    {
      match a {
        case Output(port) => ComposeOutputAction(port);
        case SetField(id) => flow := env.setField(id, flow);
        case DecTtl => flow := env.decTtl(flow);
        case Resubmit(inPort, table) =>
          var p := if inPort.None? then env.inPort(flow) else inPort.value;
          var t := if table == 255 then tableId else table;
          XlateTableAction(p, t, false);
        case Exit => exit := true;
      }
    }

    /** The goto-table branch: unpin the rule in hand, pin the next one. */
    method EnterTable(table: nat, wasEvictable: bool, ghost base: set<nat>)
      returns (acts: seq<Action>, nowEvictable: bool)
      requires Pinned(base, rule, wasEvictable, pinned)
      modifies this
      ensures recurse == old(recurse) && Pinned(base, rule, nowEvictable, pinned)
      ensures var l := env.Look1(Key(ofproto, table), old(flow));
              && View() == old(View()).(tableId := table, trace := old(trace) + [l])
              && acts == env.Used(l, true, old(flow)).value.1
    {
      tableId := table;
      var l := env.Look1(Key(ofproto, table), flow);
      trace := trace + [l];
      var used := env.Used(l, true, flow);
      if rule.Some? && wasEvictable {
        pinned := pinned - {rule.value.id};
      }
      assert pinned == base;
      rule := Some(used.value.0);
      nowEvictable := used.value.0.id !in pinned;
      pinned := pinned + {used.value.0.id};
      acts := used.value.1;
    }

    /** `do_xlate_actions`: a loop over the actions, which goto-table restarts with those of the
        next rule. The rule in hand is pinned meanwhile, and each rule's flag is put back,
        also when the same rule is already pinned further out. */
    method DoXlateActions(ofpacts: seq<Action>)
      requires recurse <= 64
      modifies this
      ensures View() == XActions(env, old(View()), ofpacts)
      ensures recurse == old(recurse) && pinned == old(pinned)
      decreases 64 - recurse, 1, 0
    {
      hide XActions, XOne, XTable, XOutput, StillValid, Env.Look1, Env.Used, Kept;
      var acts, i := ofpacts, 0;
      var wasEvictable := true;
      if rule.Some? {
        wasEvictable := rule.value.id !in pinned;
        pinned := pinned + {rule.value.id};
      }
      assert acts[0..] == acts;
      while i < |acts|
        invariant i <= |acts| && recurse == old(recurse)
        invariant XActions(env, View(), acts[i..]) == XActions(env, old(View()), ofpacts)
        invariant Pinned(old(pinned), rule, wasEvictable, pinned)
        decreases if tableId < 256 then 256 - tableId else 0, |acts| - i
      {
        var a := acts[i];
        ActionStep(env, View(), acts, i);
        if exit || (a.DecTtl? && env.expired(flow)) { break; }
        if a.GotoTable? {
          if !(tableId < a.table < 256) {
            failed := true;
            break;
          }
          acts, wasEvictable := EnterTable(a.table, wasEvictable, old(pinned));
          i := 0;
          assert acts[0..] == acts;
        } else {
          OneAction(a);
          i := i + 1;
        }
      }
      if i == |acts| { NoActions(env, View(), acts); }
      if rule.Some? && wasEvictable {
        pinned := pinned - {rule.value.id};
      }
    }
  }

  /** `a` is neither goto-table nor a decrement that ends the translation. */
  predicate Continues(env: Env, c: Ctx, a: Action) {
    !a.GotoTable? && !(a.DecTtl? && env.expired(c.flow))
  }

  function XOne(env: Env, c: Ctx, a: Action): (r: Ctx)
    requires c.recurse <= 64 && !a.GotoTable?
    ensures Kept(c, r) && r.tableId == c.tableId
  {
    match a
    case Output(port) => XOutput(env, c, port)
    case SetField(id) => c.(flow := env.setField(id, c.flow))
    case DecTtl => c.(flow := env.decTtl(c.flow))
    case Resubmit(inPort, table) =>
      XTable(env, c, if inPort.None? then env.inPort(c.flow) else inPort.value,
             if table == 255 then c.tableId else table, false)
    case Exit => c.(exit := true)
  }

  lemma TableStep(env: Env, c: Ctx, port: nat, table: nat, mayPacketIn: bool)
    requires c.recurse <= 64
    ensures c.recurse == 64 ==> XTable(env, c, port, table, mayPacketIn) == c.(hitLimit := true)
    ensures c.recurse < 64 ==>
              var l := env.Look1(Key(c.ofproto, table), env.withPort(c.flow, port));
              var used, c1 := env.Used(l, mayPacketIn, c.flow), c.(trace := c.trace + [l]);
              XTable(env, c, port, table, mayPacketIn)
              == if used.None? then c1
                 else XActions(env, c1.(recurse := c.recurse + 1, tableId := table), used.value.1)
                      .(recurse := c.recurse, tableId := c.tableId)
  {
    hide XActions, XOutput, Env.Look1, Env.Used, StillValid;
  }

  lemma ActionStep(env: Env, c: Ctx, acts: seq<Action>, i: nat)
    requires c.recurse <= 64 && i < |acts|
    ensures !c.exit && Continues(env, c, acts[i]) ==>
              XActions(env, c, acts[i..]) == XActions(env, XOne(env, c, acts[i]), acts[i + 1..])
    ensures c.exit || (acts[i].DecTtl? && env.expired(c.flow)) ==> XActions(env, c, acts[i..]) == c
    ensures !c.exit && acts[i].GotoTable? && c.tableId < acts[i].table < 256 ==>
              var l := env.Look1(Key(c.ofproto, acts[i].table), c.flow);
              XActions(env, c, acts[i..])
              == XActions(env, c.(tableId := acts[i].table, trace := c.trace + [l]), env.Used(l, true, c.flow).value.1)
    ensures !c.exit && acts[i].GotoTable? && !(c.tableId < acts[i].table < 256) ==>
              XActions(env, c, acts[i..]) == c.(failed := true)
  {
  }

  lemma NoActions(env: Env, c: Ctx, acts: seq<Action>)
    requires c.recurse <= 64
    ensures XActions(env, c, acts[|acts|..]) == c
  {
  }

  /** `pinned` is `base` with the rule in hand pinned, and `wasEvictable` tells whether that
      changed anything. */
  ghost predicate Pinned(base: set<nat>, rule: Option<Rule>, wasEvictable: bool, pinned: set<nat>) {
    match rule
    case None => pinned == base
    case Some(r) => pinned == base + {r.id} && (wasEvictable <==> r.id !in base)
  }

  /** A whole translation by the imperative code is the functional one; it leaves no rule pinned
      that was not, and with well-formed tables it violates no assertion. */
  method TranslateFlow(env: Env, o: nat, f: FlowWords, pinned: set<nat>) returns (r: Ctx, now: set<nat>)
    ensures r == Translate(env, o, f) && now == pinned
    ensures WellFormed(env) ==> !r.failed
  {
    hide WellFormed, GotosRise;
    var ctx := new XlateCtx(env, o, f, pinned);
    var l := env.Look1(Key(o, 0), f);
    ctx.trace := [l];
    var used := env.Used(l, true, f);
    ctx.rule := Some(used.value.0);
    var entry := env.entry(o, f);
    if entry.Special? {
      ctx.slow := true;
    } else if !entry.Refused? {
      ctx.DoXlateActions(used.value.1);
      if entry.Blocked? {
        ctx.out := [];
      }
    }
    r, now := ctx.View(), ctx.pinned;
    if WellFormed(env) {
      UsedRises(env, Key(o, 0), f, true, f);
      ActionsNeverFail(env, Entering(o, f, l), used.value.1);
    }
  }
}
