/**
 The structural validator: one pass over the program with a stack of pending
 jump targets, and what its acceptance guarantees.
 */
module AsmapCheck {
  import opened Basics
  import opened AsmapCode

  const ADDRESS_BITS: nat := 128

  datatype Kind = AfterJump | AfterMatch | AfterDefault

  /** A jump target not reached yet, with the address bits left on that branch. */
  datatype Pending = Pending(target: nat, bits: nat)

  datatype Checker = Checker(pos: nat, bits: nat, jumps: seq<Pending>, previous: Kind, incomplete: bool)

  const START: Checker := Checker(0, ADDRESS_BITS, [], AfterJump, false)

  datatype Verdict = Accept | Reject | Continue(next: Checker)

  function Last<T>(s: seq<T>): T
    requires s != []
  {
    s[|s| - 1]
  }

  /** At most seven padding bits, all of them clear. */
  predicate CleanPadding(p: Program, pos: nat)
    requires pos <= |p|
  {
    |p| - pos <= 7 && forall i | pos <= i < |p| :: !p[i]
  }

  /** What follows a RETURN that ends at `pos`. */
  function AfterReturn(p: Program, pos: nat, jumps: seq<Pending>, incomplete: bool): Verdict
    requires pos <= |p|
  {
    if jumps == [] then (if CleanPadding(p, pos) then Accept else Reject)
    else if pos != Last(jumps).target then Reject
    else Continue(Checker(pos, Last(jumps).bits, jumps[..|jumps| - 1], AfterJump, incomplete))
  }

  /** One iteration of the validator. */
  function CheckStep(p: Program, c: Checker): (v: Verdict)
    ensures v.Continue? ==> c.pos < v.next.pos <= |p|
  {
    if c.pos >= |p| || (c.jumps != [] && c.pos >= Last(c.jumps).target) then Reject
    else
      var i := Fetch(p, c.pos);
      if i.None? then Reject
      else
        var next := i.value.next;
        match i.value.op
        case Return(_) =>
          if c.previous == AfterDefault then Reject
          else AfterReturn(p, next, c.jumps, c.incomplete)
        case Jump(offset) =>
          if offset > |p| - next || c.bits == 0 then Reject
          else if c.jumps != [] && next + offset >= Last(c.jumps).target then Reject
          else
            Continue(Checker(next, c.bits - 1, c.jumps + [Pending(next + offset, c.bits - 1)],
                             AfterJump, c.incomplete))
        case Match(pattern) =>
          var n := MatchLen(pattern);
          var chained := c.previous == AfterMatch && c.incomplete;
          if (n < 8 && chained) || c.bits < n then Reject
          else Continue(Checker(next, c.bits - n, c.jumps, AfterMatch, n < 8))
        case Default(_) =>
          if c.previous == AfterDefault then Reject
          else Continue(Checker(next, c.bits, c.jumps, AfterDefault, c.incomplete))
  }

  predicate Check(p: Program, c: Checker)
    decreases |p| - c.pos
  {
    match CheckStep(p, c)
    case Accept => true
    case Reject => false
    case Continue(next) => Check(p, next)
  }

  // ----- The pending-jump stack -----

  /** Bits and targets both strictly decrease up the stack, and the checker is below its top. */
  predicate Nested(c: Checker) {
    && (forall i, j | 0 <= i < j < |c.jumps| ::
          c.jumps[i].bits > c.jumps[j].bits && c.jumps[i].target > c.jumps[j].target)
    && (forall i | 0 <= i < |c.jumps| :: c.bits <= c.jumps[i].bits < ADDRESS_BITS)
    && c.bits <= ADDRESS_BITS
  }

  lemma StepKeepsNesting(p: Program, c: Checker)
    requires Nested(c)
    ensures var v := CheckStep(p, c); v.Continue? ==> Nested(v.next)
  {
    hide Fetch, MatchLen;
    var v := CheckStep(p, c);
    if v.Continue? && |v.next.jumps| > |c.jumps| {
      assert v.next.jumps[..|c.jumps|] == c.jumps;
      assert forall i | 0 <= i < |c.jumps| :: c.jumps[i].target >= Last(c.jumps).target;
    }
  }

  /** Strictly decreasing bit counts leave no room for more than one entry per address bit. */
  lemma {:induction false} NestedDepth(jumps: seq<Pending>, low: nat)
    requires forall i, j | 0 <= i < j < |jumps| :: jumps[i].bits > jumps[j].bits
    requires forall i | 0 <= i < |jumps| :: low <= jumps[i].bits < ADDRESS_BITS
    requires low <= ADDRESS_BITS
    ensures |jumps| <= ADDRESS_BITS - low
  {
    if jumps != [] {
      NestedDepth(jumps[..|jumps| - 1], Last(jumps).bits + 1);
    }
  }

  lemma NestedStack(c: Checker)
    requires Nested(c)
    ensures |c.jumps| <= ADDRESS_BITS - c.bits
  {
    NestedDepth(c.jumps, c.bits);
  }

  /** The checker after `n` iterations, while it has not decided. */
  function Iterate(p: Program, n: nat): Verdict {
    if n == 0 then Continue(START)
    else match Iterate(p, n - 1)
      case Continue(c) => CheckStep(p, c)
      case decided => decided
  }

  /** On every program, accepted or not, the stack never outgrows the address bits already consumed. */
  lemma {:induction false} StackNeverExceedsAddressBits(p: Program, n: nat)
    ensures match Iterate(p, n)
            case Continue(c) => Nested(c) && |c.jumps| <= ADDRESS_BITS - c.bits
            case _ => true
  {
    assert Nested(START);
    hide CheckStep, Nested;
    if n > 0 {
      StackNeverExceedsAddressBits(p, n - 1);
      match Iterate(p, n - 1) {
        case Continue(c) =>
          StepKeepsNesting(p, c);
          match CheckStep(p, c) {
            case Continue(d) => NestedStack(d);
            case _ =>
          }
        case _ =>
      }
    }
  }

  // ----- Soundness -----

  /** A lookup that ended at a RETURN or at a diverging MATCH, as opposed to in malformed data. */
  predicate Clean(o: Outcome, default: nat) {
    match o
    case Returned(asn) => 1 <= asn <= MAX_ASN
    case Diverged(asn) => asn == default || 1 <= asn <= MAX_ASN
    case Malformed => false
  }

  /** Every address with `bits` lookup bits left runs cleanly from `pos`. */
  ghost predicate RunsClean(p: Program, pos: nat, bits: nat) {
    forall address: seq<bool>, default: nat | |address| == bits ::
      Clean(Run(p, pos, address, default), default)
  }

  ghost predicate BranchesRunClean(p: Program, jumps: seq<Pending>) {
    forall i | 0 <= i < |jumps| ::
      jumps[i].target < |p| && RunsClean(p, jumps[i].target, jumps[i].bits)
  }

  lemma JumpRunsClean(p: Program, pos: nat, bits: nat, offset: nat, next: nat)
    requires pos < |p| && Fetch(p, pos) == Some(Instruction(Jump(offset), next))
    requires bits > 0 && next + offset < |p|
    requires RunsClean(p, next, bits - 1) && RunsClean(p, next + offset, bits - 1)
    ensures RunsClean(p, pos, bits)
  {
    hide Fetch, LowBits;
    forall address: seq<bool>, default: nat | |address| == bits
      ensures Clean(Run(p, pos, address, default), default)
    {
      assert address != [] && offset < |p| - next;
      var rest := address[1..];
      assert Clean(Run(p, next, rest, default), default);
      assert Clean(Run(p, next + offset, rest, default), default);
    }
  }

  lemma MatchRunsClean(p: Program, pos: nat, bits: nat, pattern: nat, next: nat)
    requires pos < |p| && Fetch(p, pos) == Some(Instruction(Match(pattern), next))
    requires MatchLen(pattern) <= bits && RunsClean(p, next, bits - MatchLen(pattern))
    ensures RunsClean(p, pos, bits)
  {
    hide Fetch, LowBits;
    var n := MatchLen(pattern);
    forall address: seq<bool>, default: nat | |address| == bits
      ensures Clean(Run(p, pos, address, default), default)
    {
      assert |address[n..]| == bits - n;
    }
  }

  lemma DefaultRunsClean(p: Program, pos: nat, bits: nat, asn: nat, next: nat)
    requires pos < |p| && Fetch(p, pos) == Some(Instruction(Default(asn), next))
    requires RunsClean(p, next, bits)
    ensures RunsClean(p, pos, bits)
  {
    hide Fetch, LowBits;
    forall address: seq<bool>, default: nat | |address| == bits
      ensures Clean(Run(p, pos, address, default), default)
    {
      assert Clean(Run(p, next, address, asn), asn);
    }
  }

  /** The instruction the checker accepted, given that everything it leads to runs cleanly. */
  lemma StepRunsClean(p: Program, c: Checker)
    requires CheckStep(p, c) != Reject
    requires match CheckStep(p, c)
             case Continue(d) => d.pos < |p| && RunsClean(p, d.pos, d.bits) && BranchesRunClean(p, d.jumps)
             case _ => true
    ensures RunsClean(p, c.pos, c.bits)
  {
    hide Fetch, LowBits;
    var i := Fetch(p, c.pos).value;
    match i.op {
      case Return(asn) =>
      case Jump(offset) =>
        var d := CheckStep(p, c).next;
        assert d.jumps[|c.jumps|] == Pending(i.next + offset, c.bits - 1);
        JumpRunsClean(p, c.pos, c.bits, offset, i.next);
      case Match(pattern) => MatchRunsClean(p, c.pos, c.bits, pattern, i.next);
      case Default(asn) => DefaultRunsClean(p, c.pos, c.bits, asn, i.next);
    }
  }

  /** The pending branches are those of the next state, or the one it continues with. */
  lemma StepBranches(p: Program, c: Checker)
    requires match CheckStep(p, c)
             case Continue(d) => d.pos < |p| && RunsClean(p, d.pos, d.bits) && BranchesRunClean(p, d.jumps)
             case verdict => verdict == Accept
    ensures BranchesRunClean(p, c.jumps)
  {
    hide Fetch, RunsClean;
    if c.jumps != [] {
      var d := CheckStep(p, c).next;
      var rest := c.jumps[..|c.jumps| - 1];
      assert c.jumps == rest + [Last(c.jumps)];
      assert d.jumps == rest || c.jumps <= d.jumps;
    }
  }

  lemma PositionInside(p: Program, c: Checker)
    requires CheckStep(p, c) != Reject
    ensures c.pos < |p|
  {
  }

  /** If the checker goes on to accept, both the code ahead and every pending branch run cleanly. */
  lemma {:induction false} AcceptedFromHere(p: Program, c: Checker)
    requires Check(p, c)
    ensures c.pos < |p|
    ensures RunsClean(p, c.pos, c.bits)
    ensures BranchesRunClean(p, c.jumps)
    decreases |p| - c.pos
  {
    hide CheckStep, RunsClean, BranchesRunClean;
    var v := CheckStep(p, c);
    if v.Continue? { AcceptedFromHere(p, v.next); }
    assert c.pos < |p| by { PositionInside(p, c); }
    StepRunsClean(p, c);
    StepBranches(p, c);
  }

  /**
   Every accepted program answers every 128-bit address without meeting
   malformed data: it reaches a RETURN, or a MATCH diverges to the default.
   */
  lemma AcceptedProgramsRunCleanly(p: Program, address: seq<bool>)
    requires Check(p, START) && |address| == ADDRESS_BITS
    ensures Clean(Run(p, 0, address, 0), 0)
  {
    AcceptedFromHere(p, START);
  }
}
