/** The bytecode interpreter that decides whether a device matches a bind
    program (src/devices/bin/driver_manager/binding.cc).

    `Evaluate` is the interpreter's loop. `Eval` is a recursive meaning of
    program suffixes, and `Route` is a third, non-recursive one: a program
    matches when there is a chain of executed positions ending in a MATCH. */
module BindProgram {
  import opened Common

  type uint32 = x: int | 0 <= x < 0x1_0000_0000

  datatype Inst = Inst(op: uint32, arg: uint32)
  datatype Prop = Prop(id: uint32, value: uint32)

  /** What a program can observe of a device. */
  datatype Context = Context(props: seq<Prop>, protocolId: uint32, autobind: uint32)

  const BIND_FLAGS: uint32 := 0
  const BIND_PROTOCOL: uint32 := 1
  const BIND_AUTOBIND: uint32 := 2

  const COND_AL: uint32 := 0
  const COND_EQ: uint32 := 1
  const COND_NE: uint32 := 2

  const OP_ABORT: uint32 := 0
  const OP_MATCH: uint32 := 1
  const OP_GOTO: uint32 := 2
  const OP_LABEL: uint32 := 5

  // Fields of the 32-bit operation word: condition 31..28, operation 27..24,
  // parameter A 23..16, parameter B 15..0.
  function CC(op: uint32): uint32 { op / 0x1000_0000 }
  function Op(op: uint32): uint32 { op / 0x100_0000 % 0x10 }
  function PA(op: uint32): uint32 { op / 0x1_0000 % 0x100 }
  function PB(op: uint32): uint32 { op % 0x1_0000 }

  predicate IsLabel(i: Inst, lbl: uint32) {
    Op(i.op) == OP_LABEL && PA(i.op) == lbl
  }

  function Fallback(ctx: Context, id: uint32): uint32 {
    if id == BIND_PROTOCOL then ctx.protocolId
    else if id == BIND_AUTOBIND then ctx.autobind
    else 0
  }

  /** The value of a property: its first occurrence wins. */
  function Lookup(ctx: Context, id: uint32): uint32 {
    LookupIn(ctx.props, id, Fallback(ctx, id))
  }

  function LookupIn(props: seq<Prop>, id: uint32, fallback: uint32): uint32 {
    if props == [] then fallback
    else if props[0].id == id then props[0].value
    else LookupIn(props[1..], id, fallback)
  }

  method LookupBindProperty(ctx: Context, id: uint32) returns (value: uint32)
    ensures value == Lookup(ctx, id)
    ensures (forall j :: 0 <= j < |ctx.props| ==> ctx.props[j].id != id) ==> value == Fallback(ctx, id)
    ensures forall k :: 0 <= k < |ctx.props| && ctx.props[k].id == id
                        && (forall j :: 0 <= j < k ==> ctx.props[j].id != id)
                        ==> value == ctx.props[k].value
  {
    for i := 0 to |ctx.props|
      invariant forall j :: 0 <= j < i ==> ctx.props[j].id != id
      invariant Lookup(ctx, id) == LookupIn(ctx.props[i..], id, Fallback(ctx, id))
    {
      if ctx.props[i].id == id {
        return ctx.props[i].value;
      }
    }
    return Fallback(ctx, id);
  }

  datatype Verdict = Holds | Fails | Illegal

  /** The condition field of one instruction. `flags` is never written by the
      interpreter, so the pseudo-property BIND_FLAGS always reads 0. */
  function Condition(ctx: Context, i: Inst): Verdict {
    var pval := if PB(i.op) != BIND_FLAGS then Lookup(ctx, PB(i.op)) else 0;
    if CC(i.op) == COND_AL then Holds
    else if CC(i.op) == COND_EQ then (if pval == i.arg then Holds else Fails)
    else if CC(i.op) == COND_NE then (if pval != i.arg then Holds else Fails)
    else Illegal
  }

  /** The first label `lbl` of a program, if there is one. */
  function FindLabel(p: seq<Inst>, lbl: uint32): (r: Option<nat>)
    ensures r.Some? ==> r.value < |p| && IsLabel(p[r.value], lbl)
                        && forall k :: 0 <= k < r.value ==> !IsLabel(p[k], lbl)
    ensures r.None? ==> forall k :: 0 <= k < |p| ==> !IsLabel(p[k], lbl)
  {
    if p == [] then None
    else if IsLabel(p[0], lbl) then Some(0)
    else match FindLabel(p[1..], lbl)
      case None => None
      case Some(k) => Some(k + 1)
  }

  /** The meaning of a program, by recursion on its suffixes. */
  predicate Eval(ctx: Context, p: seq<Inst>)
    decreases |p|
  {
    if p == [] then false
    else match Condition(ctx, p[0])
      case Illegal => false
      case Fails => Eval(ctx, p[1..])
      case Holds =>
        var op := Op(p[0].op);
        if op == OP_MATCH then true
        else if op == OP_LABEL then Eval(ctx, p[1..])
        else if op == OP_GOTO then
          match FindLabel(p[1..], PA(p[0].op))
          case None => false
          case Some(k) => Eval(ctx, p[k + 2..])
        else false
  }

  /** The interpreter's loop: it terminates on every instruction array and
      computes the recursive meaning. */
  method Evaluate(ctx: Context, program: seq<Inst>) returns (matched: bool)
    ensures matched == Eval(ctx, program)
  {
    hide CC, Op, PA, PB, Lookup, FindLabel;
    var ip := 0;
    while ip < |program|
      invariant 0 <= ip <= |program|
      invariant Eval(ctx, program) == Eval(ctx, program[ip..])
    {
      var inst := program[ip];
      assert program[ip..][0] == inst && program[ip..][1..] == program[ip + 1..];
      var cond: bool;
      if CC(inst.op) != COND_AL {
        var pid := PB(inst.op);
        var pval: uint32 := 0;
        if pid != BIND_FLAGS {
          pval := LookupBindProperty(ctx, pid);
        }
        if CC(inst.op) == COND_EQ {
          cond := pval == inst.arg;
        } else if CC(inst.op) == COND_NE {
          cond := pval != inst.arg;
        } else {
          return false;
        }
      } else {
        cond := true;
      }
      if cond {
        var op := Op(inst.op);
        if op == OP_ABORT {
          return false;
        } else if op == OP_MATCH {
          return true;
        } else if op == OP_GOTO {
          ghost var rest := program[ip + 1..];
          ghost var start := ip;
          var lbl := PA(inst.op);
          ip := ip + 1;
          while ip < |program| && !IsLabel(program[ip], lbl)
            invariant start < ip <= |program|
            invariant forall k :: 0 <= k < ip - start - 1 ==> !IsLabel(rest[k], lbl)
          {
            ip := ip + 1;
          }
          if ip == |program| {
            return false;
          }
          assert rest[ip - start - 1] == program[ip];
          assert FindLabel(rest, lbl) == Some(ip - start - 1);
          assert program[start..][ip - start - 1 + 2..] == program[ip + 1..];
        } else if op != OP_LABEL {
          return false;
        }
      }
      ip := ip + 1;
    }
    return false;
  }

  // ----- the chain-of-positions meaning

  /** Executing position `i` continues at position `j`. */
  ghost predicate Follows(ctx: Context, p: seq<Inst>, i: nat, j: nat) {
    && i < |p|
    && var c, op := Condition(ctx, p[i]), Op(p[i].op);
       || (j == i + 1 && (c.Fails? || (c.Holds? && op == OP_LABEL)))
       || (c.Holds? && op == OP_GOTO && i + 1 < j <= |p| && IsLabel(p[j - 1], PA(p[i].op))
           && forall k :: i < k < j - 1 ==> !IsLabel(p[k], PA(p[i].op)))
  }

  /** `t` lists executed positions from `from` to a MATCH whose condition holds. */
  ghost predicate Route(ctx: Context, p: seq<Inst>, from: nat, t: seq<nat>) {
    && t != [] && t[0] == from
    && (forall n :: 0 <= n < |t| - 1 ==> Follows(ctx, p, t[n], t[n + 1]))
    && var last := t[|t| - 1];
       last < |p| && Condition(ctx, p[last]).Holds? && Op(p[last].op) == OP_MATCH
  }

  lemma {:induction false} StepOfEval(ctx: Context, p: seq<Inst>, i: nat, j: nat)
    requires Follows(ctx, p, i, j)
    ensures Eval(ctx, p[i..]) == (j <= |p| && Eval(ctx, p[j..]))
  {
  }

  lemma {:induction false} RouteImpliesEval(ctx: Context, p: seq<Inst>, from: nat, t: seq<nat>)
    requires Route(ctx, p, from, t)
    ensures from < |p| && Eval(ctx, p[from..])
    decreases |t|
  {
    if |t| > 1 {
      assert Follows(ctx, p, t[0], t[1]);
      var rest := t[1..];
      forall n | 0 <= n < |rest| - 1 ensures Follows(ctx, p, rest[n], rest[n + 1]) {
        assert Follows(ctx, p, t[n + 1], t[n + 2]);
      }
      RouteImpliesEval(ctx, p, t[1], rest);
      StepOfEval(ctx, p, from, t[1]);
    }
  }

  lemma {:induction false} EvalImpliesRoute(ctx: Context, p: seq<Inst>, from: nat) returns (t: seq<nat>)
    requires from <= |p| && Eval(ctx, p[from..])
    ensures Route(ctx, p, from, t)
    decreases |p| - from
  {
    assert p[from..][0] == p[from] && p[from..][1..] == p[from + 1..];
    var op := Op(p[from].op);
    if Condition(ctx, p[from]).Holds? && op == OP_MATCH {
      return [from];
    }
    var next := from + 1;
    if Condition(ctx, p[from]).Holds? && op == OP_GOTO {
      var rest, lbl := p[from + 1..], PA(p[from].op);
      var k := FindLabel(rest, lbl).value;
      next := from + k + 2;
      forall m | from < m < next - 1 ensures !IsLabel(p[m], lbl) {
        assert rest[m - from - 1] == p[m];
      }
    }
    assert Follows(ctx, p, from, next);
    StepOfEval(ctx, p, from, next);
    var t' := EvalImpliesRoute(ctx, p, next);
    t := [from] + t';
    forall n | 0 <= n < |t| - 1 ensures Follows(ctx, p, t[n], t[n + 1]) {
      if n > 0 { assert Follows(ctx, p, t'[n - 1], t'[n]); }
    }
  }

  /** A program matches exactly when it has a route to a MATCH. */
  lemma EvalIffRoute(ctx: Context, p: seq<Inst>)
    ensures Eval(ctx, p) <==> exists t :: Route(ctx, p, 0, t)
  {
    assert p[0..] == p;
    if Eval(ctx, p) {
      var t := EvalImpliesRoute(ctx, p, 0);
    }
    if t :| Route(ctx, p, 0, t) {
      RouteImpliesEval(ctx, p, 0, t);
    }
  }

  // ----- what a program can and cannot depend on

  /** The property ids a program tests. */
  ghost function Tested(p: seq<Inst>): set<uint32> {
    set i | 0 <= i < |p| && CC(p[i].op) != COND_AL && PB(p[i].op) != BIND_FLAGS :: PB(p[i].op)
  }

  /** Two devices that agree on the tested properties match the same programs. */
  lemma {:induction false} DependsOnlyOnTested(a: Context, b: Context, p: seq<Inst>)
    requires forall id :: id in Tested(p) ==> Lookup(a, id) == Lookup(b, id)
    ensures Eval(a, p) == Eval(b, p)
  {
    if ta :| Route(a, p, 0, ta) {
      SameRoute(a, b, p, ta);
      assert Route(b, p, 0, ta);
    }
    if tb :| Route(b, p, 0, tb) {
      SameRoute(b, a, p, tb);
      assert Route(a, p, 0, tb);
    }
    EvalIffRoute(a, p);
    EvalIffRoute(b, p);
  }

  lemma SameRoute(a: Context, b: Context, p: seq<Inst>, t: seq<nat>)
    requires forall id :: id in Tested(p) ==> Lookup(a, id) == Lookup(b, id)
    requires Route(a, p, 0, t)
    ensures Route(b, p, 0, t)
  {
    forall i | 0 <= i < |p| ensures Condition(a, p[i]) == Condition(b, p[i]) {
      assert CC(p[i].op) != COND_AL && PB(p[i].op) != BIND_FLAGS ==> PB(p[i].op) in Tested(p);
    }
    forall n | 0 <= n < |t| - 1 ensures Follows(b, p, t[n], t[n + 1]) {
      assert Follows(a, p, t[n], t[n + 1]);
    }
  }

  /** A program that matches still matches with any instructions appended. */
  lemma AppendKeepsMatch(ctx: Context, p: seq<Inst>, q: seq<Inst>)
    requires Eval(ctx, p)
    ensures Eval(ctx, p + q)
  {
    EvalIffRoute(ctx, p);
    var t :| Route(ctx, p, 0, t);
    forall n | 0 <= n < |t| - 1 ensures Follows(ctx, p + q, t[n], t[n + 1]) {
      assert Follows(ctx, p, t[n], t[n + 1]);
    }
    assert Route(ctx, p + q, 0, t);
    EvalIffRoute(ctx, p + q);
  }
}
