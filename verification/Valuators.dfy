/** The valuator, which turns a tree into stack steps one call at a time, and the loop
    that carries the steps out. */
module Valuators {
  import opened Options
  import opened InternalRules
  import opened Bocages
  import opened Valuations
  import opened TreeSearch

  datatype StepType = StepInitial | StepRule | StepToken | StepNulling | StepTrace | StepGetData | StepInactive

  datatype TokenType = DummyToken | ValuedToken | NullingToken

  ghost function EntriesOf(tree: seq<Slot>): (r: seq<(nat, nat)>)
    ensures |r| == |tree| && forall i :: 0 <= i < |r| ==> r[i] == (tree[i].or, tree[i].choice)
  {
    seq(|tree|, i requires 0 <= i < |tree| => (tree[i].or, tree[i].choice))
  }

  /** The machine after the visits of all nooks from `n` on. */
  ghost function MachineAt(b: Bocage, l: Labels, tree: seq<Slot>, n: int): Option<Machine> {
    if 0 <= n <= |tree| then VisitAll(b, l, EntriesOf(tree)[n..], Machine([], [])) else None
  }

  /** The stack of nooks is a whole tree, and its and-nodes exist. */
  ghost predicate TreeOk(b: Bocage, l: Labels, tree: seq<Slot>) {
    && MachineAt(b, l, tree, 0).Some?
    && (forall i :: 0 <= i < |tree| ==> IxIsValid(b, tree[i].or, tree[i].choice) && AndId(b, tree[i].or, tree[i].choice) < |b.ands|)
  }

  lemma {:induction false} MachineSome(b: Bocage, l: Labels, tree: seq<Slot>, n: nat)
    requires MachineAt(b, l, tree, 0).Some? && n <= |tree|
    ensures MachineAt(b, l, tree, n).Some?
  {
    if n > 0 {
      MachineSome(b, l, tree, n - 1);
      assert EntriesOf(tree)[n - 1..][1..] == EntriesOf(tree)[n..];
    } else {
      assert EntriesOf(tree)[0..] == EntriesOf(tree);
    }
  }

  /** The visit of nook `n`. */
  lemma {:induction false} MachineStep(b: Bocage, l: Labels, tree: seq<Slot>, n: nat)
    requires MachineAt(b, l, tree, 0).Some? && n < |tree|
    ensures MachineAt(b, l, tree, n + 1).Some? && MachineAt(b, l, tree, n).Some?
    ensures MachineAt(b, l, tree, n) == Visit(b, l, tree[n].or, tree[n].choice, MachineAt(b, l, tree, n + 1).value)
  {
    MachineSome(b, l, tree, n);
    MachineSome(b, l, tree, n + 1);
    assert EntriesOf(tree)[n..][1..] == EntriesOf(tree)[n + 1..];
  }

  /** The same, with the machine as it was before the visit. */
  lemma {:induction false} NookStep(b: Bocage, l: Labels, tree: seq<Slot>, n: nat, m: Machine)
    requires MachineAt(b, l, tree, 0).Some? && n < |tree| && MachineAt(b, l, tree, n + 1) == Some(m)
    ensures var x := tree[n];
            && Finish(l, x.or, Machine(m.vals + LeafSlots(b, l, x.or, x.choice), m.counts)).Some?
            && MachineAt(b, l, tree, n) == Finish(l, x.or, Machine(m.vals + LeafSlots(b, l, x.or, x.choice), m.counts))
  {
    hide MachineAt, Finish, LeafSlots;
    MachineStep(b, l, tree, n);
  }

  /** The value stack once a pending rule has replaced its arguments. */
  ghost function Settled(vals: seq<Value>, rule: int, arg0: int): seq<Value> {
    if rule >= 0 && 0 <= arg0 <= |vals| then vals[..arg0] + [RuleValue(rule, vals[arg0..])] else vals
  }

  /** What the token step on offer will push. */
  function Pending(token: TokenType, xsy: nat, value: int): seq<Value> {
    match token
    case DummyToken => []
    case ValuedToken => [TokenValue(xsy, value)]
    case NullingToken => [NullValue(xsy)]
  }

  class Valuator {
    const b: Bocage
    const l: Labels
    const tree: seq<Slot>
    var next: StepType
    var nook: int
    var arg0: int
    var argN: int
    var result: int
    var token: TokenType
    var xsy: nat
    var tokenValue: int
    var rule: int
    var counts: seq<nat>
    /** What the value stack holds when the steps given so far have been carried out. */
    ghost var vals: seq<Value>

    ghost predicate Valid()
      reads this
    {
      && TreeOk(b, l, tree)
      && match next
         case StepInitial => nook == -1 && arg0 == -1 && argN == -1 && vals == [] && counts == []
         case StepGetData => AtNook()
         case StepTrace => AtNook()
         case StepRule => Offered(vals)
         case StepInactive => nook == -1 && MachineAt(b, l, tree, 0) == Some(Machine(vals, counts))
         case _ => false
    }

    /** All of nook `nook` is done, and `arg0` is the top of the value stack. */
    ghost predicate AtNook()
      reads this
    {
      && 0 <= nook <= |tree| && arg0 == |vals| - 1
      && MachineAt(b, l, tree, nook) == Some(Machine(vals, counts))
    }

    /** Nook `nook` has been read, its token taken up in `offered`, its rule, if any, not. */
    ghost predicate Offered(offered: seq<Value>)
      reads this
    {
      && 0 <= nook < |tree| && argN == |offered| - 1
      && (if rule >= 0 then 0 <= arg0 <= |offered| else arg0 == argN)
      && MachineAt(b, l, tree, nook) == Some(Machine(Settled(offered, rule, arg0), counts))
    }

    ghost function Remaining(): int
      reads this
    {
      if next == StepInitial then 3 * |tree| + 1
      else 3 * nook + if next == StepRule then 2 else 1
    }

    constructor (b: Bocage, l: Labels, tree: seq<Slot>)
      requires TreeOk(b, l, tree)
      ensures Valid() && this.b == b && this.l == l && this.tree == tree && next == StepInitial && vals == []
    {
      this.b, this.l, this.tree := b, l, tree;
      next, nook, arg0, argN, result := StepInitial, -1, -1, -1, -1;
      token, xsy, tokenValue, rule, counts := DummyToken, 0, -1, -1, [];
      vals := [];
    }

    /** The next step to carry out: a token or a nulling symbol pushes a value at `result`,
        a rule replaces the values at `arg0` to `argN` by one value at `result`. */
    method Step() returns (t: StepType)
      requires Valid()
      modifies this
      ensures Valid()
      ensures t == StepToken || t == StepNulling || t == StepRule || t == StepInactive
      ensures t == StepToken ==> result == |old(vals)| && vals == old(vals) + [TokenValue(xsy, tokenValue)]
      ensures t == StepNulling ==> result == |old(vals)| && vals == old(vals) + [NullValue(xsy)]
      ensures t == StepRule ==>
                && rule >= 0 && result == arg0 && 0 <= arg0 <= argN + 1 == |old(vals)|
                && vals == old(vals)[..arg0] + [RuleValue(rule, old(vals)[arg0..])]
      ensures t == StepInactive <==> next == StepInactive
      ensures t == StepInactive ==> vals == old(vals)
      ensures t != StepInactive ==> 0 <= Remaining() < old(Remaining())
    {
      hide TreeOk, MachineAt;
      while next != StepInactive
        invariant Valid() && vals == old(vals)
        invariant Remaining() <= old(Remaining()) || next == StepInactive
        decreases if next == StepRule || next == StepTrace then 1 else 0
      {
        var current := next;
        if current == StepInitial || current == StepGetData {
          GetData();
          if next == StepInactive {
            break;
          }
          next := StepRule;
          if token != DummyToken {
            t := TokenStep();
            return;
          }
          assert vals + Pending(token, xsy, tokenValue) == vals;
        }
        if current != StepTrace && rule >= 0 {
          t := RuleStep();
          return;
        }
        next := StepGetData;
      }
      next := StepInactive;
      return StepInactive;
    }

    method TokenStep() returns (t: StepType)
      requires token != DummyToken && Offered(vals + Pending(token, xsy, tokenValue))
      modifies `result, `vals
      ensures Offered(vals) && result == |old(vals)|
      ensures if token == NullingToken then t == StepNulling && vals == old(vals) + [NullValue(xsy)]
              else t == StepToken && vals == old(vals) + [TokenValue(xsy, tokenValue)]
    {
      hide MachineAt, Settled;
      if token == NullingToken {
        t := StepNulling;
      } else {
        t := StepToken;
      }
      result := argN;
      vals := vals + Pending(token, xsy, tokenValue);
    }

    method RuleStep() returns (t: StepType)
      requires rule >= 0 && Offered(vals)
      modifies `next, `result, `vals
      ensures t == StepRule && next == StepTrace && AtNook()
      ensures result == arg0 && 0 <= arg0 <= argN + 1 == |old(vals)|
      ensures vals == old(vals)[..arg0] + [RuleValue(rule, old(vals)[arg0..])]
    {
      hide MachineAt;
      next := StepTrace;
      result := arg0;
      vals := Settled(vals, rule, arg0);
      t := StepRule;
    }

    /** Read nooks, from the last to the first, up to one with something to carry out. */
    method GetData()
      requires Valid() && (next == StepInitial || next == StepGetData)
      modifies this
      ensures vals == old(vals)
      ensures next == StepInactive ==> Valid()
      ensures next != StepInactive ==>
                && next == old(next) && TreeOk(b, l, tree) && Offered(vals + Pending(token, xsy, tokenValue))
                && (token != DummyToken || rule >= 0)
                && nook < if old(next) == StepInitial then |tree| else old(nook)
    {
      hide MachineAt, TreeOk, Pending, Offered;
      Begin(b, l, tree);
      if nook < 0 {
        nook := |tree|;
      }
      ghost var start := nook;
      var popArguments := true;
      while true
        invariant vals == old(vals) && next == old(next)
        invariant 0 <= nook <= start && MachineAt(b, l, tree, nook) == Some(Machine(vals, counts))
        invariant |vals| - 1 == if popArguments then arg0 else argN
        decreases nook
      {
        tokenValue := -1;
        rule := -1;
        nook := nook - 1;
        if nook < 0 {
          next := StepInactive;
          return;
        }
        if popArguments {
          argN := arg0;
          popArguments := false;
        }
        popArguments := ReadNook();
        if rule >= 0 {
          break;
        }
        if token != DummyToken {
          break;
        }
      }
    }

    /** One nook: its token, then the end of its rule. */
    method ReadNook() returns (pop: bool)
      requires TreeOk(b, l, tree) && 0 <= nook < |tree| && rule == -1 && argN == |vals| - 1
      requires MachineAt(b, l, tree, nook + 1) == Some(Machine(vals, counts))
      modifies `token, `xsy, `tokenValue, `arg0, `argN, `rule, `counts
      ensures rule >= 0 || token != DummyToken ==> Offered(vals + Pending(token, xsy, tokenValue))
      ensures rule < 0 && token == DummyToken ==>
                argN == |vals| - 1 && MachineAt(b, l, tree, nook) == Some(Machine(vals, counts))
      ensures pop <==> rule >= 0
    {
      hide MachineAt, IxIsValid, AndId, Finish, LeafSlots, RuleOf;
      NookStep(b, l, tree, nook, Machine(vals, counts));
      var or := tree[nook].or;
      pop := false;
      ReadToken(or, tree[nook].choice);
      ghost var offered := vals + Pending(token, xsy, tokenValue);
      if Position(l, or) == |RuleOf(l, or).rhs| {
        pop := CompleteRule(or, offered);
      } else {
        NotComplete(l, or, Machine(offered, counts));
      }
      assert token == DummyToken ==> offered == vals;
    }

    /** What the and-node chosen at a nook contributes itself: a token, a nulling symbol or nothing. */
    method ReadToken(or: nat, choice: nat)
      requires IxIsValid(b, or, choice) && AndId(b, or, choice) < |b.ands|
      requires rule == -1
      modifies `token, `xsy, `tokenValue, `arg0, `argN
      ensures Pending(token, xsy, tokenValue) == LeafSlots(b, l, or, choice)
      ensures argN == old(argN) + |Pending(token, xsy, tokenValue)|
      ensures token != DummyToken ==> arg0 == argN
    {
      var and := b.ands[AndId(b, or, choice)];
      if and.cause.None? {
        match LeafAt(b, l, or, choice)
        case Token(x, v) =>
          token := ValuedToken;
          argN := argN + 1;
          arg0 := argN;
          xsy, tokenValue := x, v;
        case Nulling(x) =>
          token := NullingToken;
          argN := argN + 1;
          arg0 := argN;
          xsy := x;
      } else {
        token := DummyToken;
      }
    }

    /** A virtual rule only counts its symbols; any other takes their values as arguments. */
    method CompleteRule(or: nat, ghost offered: seq<Value>) returns (pop: bool)
      requires Done(l, or) && Finish(l, or, Machine(offered, counts)).Some?
      requires argN == |offered| - 1 && rule == -1
      modifies `arg0, `rule, `counts
      ensures Finish(l, or, Machine(offered, old(counts))) == Some(Machine(Settled(offered, rule, arg0), counts))
      ensures if rule >= 0 then 0 <= arg0 <= |offered| else arg0 == old(arg0)
      ensures pop <==> rule >= 0
    {
      var r := RuleOf(l, or);
      hide RuleOf, Position;
      var k := |counts| - 1;
      pop := false;
      if r.virtualLhs {
        if r.virtualRhs {
          counts := counts[..k] + [counts[k] + r.realCount];
        } else {
          counts := counts + [r.realCount];
        }
      } else {
        var realSymbolCount := |r.rhs|;
        if r.virtualRhs {
          realSymbolCount := r.realCount + counts[k];
          counts := counts[..k];
        }
        arg0 := argN - realSymbolCount + 1;
        pop := true;
        rule := r.source;
      }
    }
  }

  /** Before the first nook both stacks are empty. */
  lemma {:induction false} Begin(b: Bocage, l: Labels, tree: seq<Slot>)
    ensures MachineAt(b, l, tree, |tree|) == Some(Machine([], []))
  {
    assert EntriesOf(tree)[|tree|..] == [];
  }

  // ---- Carrying out the steps ----

  /** The first slots hold the value stack. */
  ghost predicate Holds(slots: map<int, Value>, vals: seq<Value>) {
    forall i :: 0 <= i < |vals| ==> i in slots && slots[i] == vals[i]
  }

  lemma {:induction false} HoldsPush(slots: map<int, Value>, vals: seq<Value>, v: Value)
    requires Holds(slots, vals)
    ensures Holds(slots[|vals| := v], vals + [v])
  {
  }

  lemma {:induction false} HoldsReplace(slots: map<int, Value>, vals: seq<Value>, n: nat, v: Value)
    requires Holds(slots, vals) && n <= |vals|
    ensures Holds(slots[n := v], vals[..n] + [v])
  {
  }

  /** The loop over the steps; the value of the tree ends up in slot 0. */
  method Evaluate(b: Bocage, l: Labels, tree: seq<Slot>) returns (slots: map<int, Value>)
    requires TreeOk(b, l, tree)
    ensures Holds(slots, MachineAt(b, l, tree, 0).value.vals)
  {
    hide TreeOk, MachineAt, Holds;
    var v := new Valuator(b, l, tree);
    slots := map[];
    NothingHeld();
    var active := true;
    while active
      invariant v.Valid() && v.b == b && v.l == l && v.tree == tree && fresh(v)
      invariant Holds(slots, v.vals)
      invariant !active ==> v.next == StepInactive
      decreases active, if active then v.Remaining() else 0
    {
      ghost var vals := v.vals;
      var t := v.Step();
      match t
      case StepRule =>
        var args := ReadArgs(slots, v.arg0, v.argN, vals);
        HoldsReplace(slots, vals, v.arg0, RuleValue(v.rule, args));
        slots := slots[v.result := RuleValue(v.rule, args)];
      case StepToken =>
        HoldsPush(slots, vals, TokenValue(v.xsy, v.tokenValue));
        slots := slots[v.result := TokenValue(v.xsy, v.tokenValue)];
      case StepNulling =>
        HoldsPush(slots, vals, NullValue(v.xsy));
        slots := slots[v.result := NullValue(v.xsy)];
      case StepInactive =>
        active := false;
      case _ =>
    }
  }

  lemma {:induction false} NothingHeld()
    ensures Holds(map[], [])
  {
  }

  method ReadArgs(slots: map<int, Value>, first: int, last: int, ghost vals: seq<Value>) returns (args: seq<Value>)
    requires Holds(slots, vals) && 0 <= first <= last + 1 == |vals|
    ensures args == vals[first..]
  {
    args := [];
    for i := 0 to last - first + 1
      invariant args == vals[first..first + i]
    {
      args := args + [slots[first + i]];
    }
  }
}
