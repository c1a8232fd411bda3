/** What bind programs mean, told without the fields of their words: a language
    of rules, the words that stand for them, and the values they test. */
module BindRules {
  import opened Common
  import opened BindProgram

  /** A 16-bit property id and an 8-bit label. */
  type Id = x: int | 0 <= x < 0x1_0000
  type Label = x: int | 0 <= x < 0x100

  datatype Test = Always | Is(id: Id, value: uint32) | IsNot(id: Id, value: uint32)
  datatype Act = Abort | Match | Goto(to: Label) | Mark(at: Label)
  datatype Rule = Rule(test: Test, act: Act)

  /** The instruction for a rule, as zircon/driver/binding.h lays it out. */
  function Word(r: Rule): Inst {
    var act: uint32 :=
      match r.act
      case Abort => 0x000_0000
      case Match => 0x100_0000
      case Goto(l) => 0x200_0000 + l * 0x1_0000
      case Mark(l) => 0x500_0000 + l * 0x1_0000;
    match r.test
    case Always => Inst(act, 0)
    case Is(id, v) => Inst(0x1000_0000 + act + id, v)
    case IsNot(id, v) => Inst(0x2000_0000 + act + id, v)
  }

  function Words(rules: seq<Rule>): (p: seq<Inst>)
    ensures |p| == |rules|
    ensures forall i :: 0 <= i < |p| ==> p[i] == Word(rules[i])
  {
    seq(|rules|, i requires 0 <= i < |rules| => Word(rules[i]))
  }

  /** `v` is the value of a property: that of the first one of the id, and
      without one the protocol for 1, the autobind flag for 2 and 0 for the
      others. Id 0 always reads 0. */
  ghost predicate HasValue(ctx: Context, id: Id, v: uint32) {
    if id == 0 then v == 0
    else if exists k :: IsFirst(ctx.props, id, k) then exists k :: IsFirst(ctx.props, id, k) && ctx.props[k].value == v
    else v == if id == 1 then ctx.protocolId else if id == 2 then ctx.autobind else 0
  }

  ghost predicate IsFirst(props: seq<Prop>, id: Id, k: int) {
    0 <= k < |props| && props[k].id == id && forall j :: 0 <= j < k ==> props[j].id != id
  }

  ghost predicate Passes(ctx: Context, t: Test) {
    match t
    case Always => true
    case Is(id, v) => HasValue(ctx, id, v)
    case IsNot(id, v) => !HasValue(ctx, id, v)
  }

  /** What follows the first mark of a label. */
  function AfterMark(rules: seq<Rule>, l: Label): (r: Option<seq<Rule>>)
    ensures r.Some? ==> |r.value| < |rules|
  {
    if rules == [] then None
    else if rules[0].act == Mark(l) then Some(rules[1..])
    else AfterMark(rules[1..], l)
  }

  /** The meaning of rules. */
  ghost predicate Accepts(ctx: Context, rules: seq<Rule>)
    decreases |rules|
  {
    if rules == [] then false
    else if !Passes(ctx, rules[0].test) then Accepts(ctx, rules[1..])
    else match rules[0].act
      case Abort => false
      case Match => true
      case Mark(_) => Accepts(ctx, rules[1..])
      case Goto(l) =>
        var rest := AfterMark(rules[1..], l);
        rest.Some? && Accepts(ctx, rest.value)
  }

  // ----- words

  /** The four fields of a word written as a sum. */
  lemma Fields(cc: int, op: int, a: int, b: int)
    requires 0 <= cc < 0x10 && 0 <= op < 0x10 && 0 <= a < 0x100 && 0 <= b < 0x1_0000
    ensures var w := cc * 0x1000_0000 + op * 0x100_0000 + a * 0x1_0000 + b;
            w < 0x1_0000_0000 && CC(w) == cc && Op(w) == op && PA(w) == a && PB(w) == b
  {
    var w := cc * 0x1000_0000 + op * 0x100_0000 + a * 0x1_0000 + b;
    assert w / 0x1_0000 == cc * 0x1000 + op * 0x100 + a;
    assert w / 0x100_0000 == cc * 0x10 + op;
  }

  function ActCode(a: Act): int {
    match a case Abort => 0 case Match => 1 case Goto(_) => 2 case Mark(_) => 5
  }

  function ActLabel(a: Act): int {
    match a case Abort => 0 case Match => 0 case Goto(l) => l case Mark(l) => l
  }

  lemma WordIs(r: Rule)
    ensures var cc, b := match r.test case Always => 0 case Is(_, _) => 1 case IsNot(_, _) => 2,
                         if r.test.Always? then 0 else r.test.id;
            Word(r).op == cc * 0x1000_0000 + ActCode(r.act) * 0x100_0000 + ActLabel(r.act) * 0x1_0000 + b
  {
  }

  lemma WordFields(r: Rule)
    ensures CC(Word(r).op) == match r.test case Always => COND_AL case Is(_, _) => COND_EQ case IsNot(_, _) => COND_NE
    ensures !r.test.Always? ==> PB(Word(r).op) == r.test.id && Word(r).arg == r.test.value
    ensures Op(Word(r).op) ==
              match r.act case Abort => OP_ABORT case Match => OP_MATCH case Goto(_) => OP_GOTO case Mark(_) => OP_LABEL
    ensures r.act.Goto? ==> PA(Word(r).op) == r.act.to
    ensures r.act.Mark? ==> PA(Word(r).op) == r.act.at
  {
    WordIs(r);
    hide CC, Op, PA, PB;
    var cc := match r.test case Always => 0 case Is(_, _) => 1 case IsNot(_, _) => 2;
    var b := if r.test.Always? then 0 else r.test.id;
    Fields(cc, ActCode(r.act), ActLabel(r.act), b);
  }

  lemma {:induction false} LookupIsFirst(props: seq<Prop>, id: Id, fallback: uint32)
    ensures if exists k :: IsFirst(props, id, k)
            then exists k :: IsFirst(props, id, k) && LookupIn(props, id, fallback) == props[k].value
            else LookupIn(props, id, fallback) == fallback
  {
    if props == [] {
    } else if props[0].id == id {
      assert IsFirst(props, id, 0);
    } else {
      var rest := props[1..];
      LookupIsFirst(rest, id, fallback);
      forall k ensures IsFirst(props, id, k + 1) <==> IsFirst(rest, id, k) { ShiftFirst(props, id, k); }
      if k :| IsFirst(props, id, k) {
        assert k != 0 && IsFirst(rest, id, k - 1);
        var m :| IsFirst(rest, id, m) && LookupIn(rest, id, fallback) == rest[m].value;
        assert IsFirst(props, id, m + 1);
      }
    }
  }

  lemma ShiftFirst(props: seq<Prop>, id: Id, k: int)
    requires props != [] && props[0].id != id
    ensures IsFirst(props, id, k + 1) <==> IsFirst(props[1..], id, k)
  {
    if IsFirst(props, id, k + 1) {
      forall j | 0 <= j < k ensures props[1..][j].id != id { assert props[j + 1].id != id; }
    }
    if IsFirst(props[1..], id, k) {
      forall j | 0 <= j < k + 1 ensures props[j].id != id { if j > 0 { assert props[1..][j - 1].id != id; } }
    }
  }

  lemma FirstIsOne(props: seq<Prop>, id: Id, j: int, k: int)
    requires IsFirst(props, id, j) && IsFirst(props, id, k)
    ensures j == k
  {
  }

  lemma ValueIs(ctx: Context, id: Id, v: uint32)
    ensures HasValue(ctx, id, v) <==> v == if id == 0 then 0 else Lookup(ctx, id)
  {
    LookupIsFirst(ctx.props, id, Fallback(ctx, id));
    if k :| IsFirst(ctx.props, id, k) {
      forall j | IsFirst(ctx.props, id, j) ensures j == k { FirstIsOne(ctx.props, id, j, k); }
    }
  }

  lemma TestHolds(ctx: Context, r: Rule)
    ensures Condition(ctx, Word(r)) == if Passes(ctx, r.test) then Holds else Fails
  {
    hide CC, PB, Word, HasValue, Lookup;
    WordFields(r);
    if !r.test.Always? { ValueIs(ctx, r.test.id, r.test.value); }
  }

  lemma {:induction false} LabelFound(rules: seq<Rule>, l: Label)
    ensures var k, rest := FindLabel(Words(rules), l), AfterMark(rules, l);
            && (k.Some? <==> rest.Some?)
            && (k.Some? ==> rest.value == rules[k.value + 1..])
  {
    hide Op, PA, Word;
    if rules == [] {
    } else {
      WordFields(rules[0]);
      assert Words(rules)[1..] == Words(rules[1..]);
      LabelFound(rules[1..], l);
    }
  }

  /** The interpreter gives programs the meaning of the rules they stand for. */
  lemma {:induction false} ProgramMeans(ctx: Context, rules: seq<Rule>)
    ensures Eval(ctx, Words(rules)) <==> Accepts(ctx, rules)
    decreases |rules|
  {
    hide Op, PA, Word, Condition, Passes, FindLabel, AfterMark;
    if rules == [] {
    } else {
      var r, rest := rules[0], rules[1..];
      var p := Words(rules);
      WordFields(r);
      TestHolds(ctx, r);
      assert p[1..] == Words(rest) && p[0] == Word(r);
      ProgramMeans(ctx, rest);
      if Passes(ctx, r.test) && r.act.Goto? {
        LabelFound(rest, r.act.to);
        var after := AfterMark(rest, r.act.to);
        if after.Some? {
          var k := FindLabel(Words(rest), r.act.to).value;
          assert p[k + 2..] == Words(after.value);
          ProgramMeans(ctx, after.value);
        }
      }
    }
  }

  // ----- programs in their own words

  /** "Match if equal", "match if not equal", and "abort unless equal, then
      match" and its dual, as the drivers' macros write them. */
  lemma OneTest(ctx: Context, id: Id, v: uint32)
    ensures Eval(ctx, [Inst(0x1100_0000 + id, v)]) <==> HasValue(ctx, id, v)
    ensures Eval(ctx, [Inst(0x2100_0000 + id, v)]) <==> !HasValue(ctx, id, v)
    ensures Eval(ctx, [Inst(0x2000_0000 + id, v), Inst(0x100_0000, 0)]) <==> HasValue(ctx, id, v)
    ensures Eval(ctx, [Inst(0x1000_0000 + id, v), Inst(0x100_0000, 0)]) <==> !HasValue(ctx, id, v)
  {
    hide Eval, HasValue;
    TwoRules(ctx, Rule(Is(id, v), Match));
    TwoRules(ctx, Rule(IsNot(id, v), Match));
    TwoRules(ctx, Rule(IsNot(id, v), Abort));
    TwoRules(ctx, Rule(Is(id, v), Abort));
  }

  lemma TwoRules(ctx: Context, r: Rule)
    requires r.act.Match? || r.act.Abort?
    ensures Eval(ctx, [Word(r)]) <==> r.act.Match? && Passes(ctx, r.test)
    ensures Eval(ctx, [Word(r), Inst(0x100_0000, 0)]) <==> r.act.Match? || !Passes(ctx, r.test)
  {
    hide Eval, Passes;
    var one, two := [r], [r, Rule(Always, Match)];
    assert Words(one) == [Word(r)] && Words(two) == [Word(r), Inst(0x100_0000, 0)];
    ProgramMeans(ctx, one);
    ProgramMeans(ctx, two);
    assert one[1..] == [] && two[1..] == [Rule(Always, Match)];
    assert Passes(ctx, Always) by { AlwaysPasses(ctx); }
    assert !Accepts(ctx, []) && Accepts(ctx, [Rule(Always, Match)]);
  }

  lemma AlwaysPasses(ctx: Context)
    ensures Passes(ctx, Always)
  {
  }

  /** Words that stand for no rule end a program without a match: a condition
      above 2 whatever it tests, and, once its condition holds, an operation
      other than the four. */
  lemma IllegalWord(ctx: Context, i: Inst, rest: seq<Inst>)
    ensures i.op >= 0x3000_0000 ==> !Eval(ctx, [i] + rest)
    ensures i.op < 0x1000_0000 && (0x300_0000 <= i.op < 0x500_0000 || 0x600_0000 <= i.op) ==> !Eval(ctx, [i] + rest)
  {
    assert ([i] + rest)[0] == i;
  }
}
