/**
 What a program means, and which programs the validator accepts, by structure:
 a program is a tree of answers, branches, guards and fallbacks laid out in
 order.  Running it evaluates the tree, and it is accepted exactly when it is
 the layout of a legal tree.
 */
module AsmapShape {
  import opened Basics
  import opened AsmapCode
  import opened AsmapCheck

  datatype Code =
    | Answer(asn: nat)
    | Choice(zero: Code, one: Code)
    | Guard(pattern: nat, rest: Code)
    | Fallback(asn: nat, rest: Code)

  /** Where the code laid out at `pos` ends, if it is laid out there. */
  function Laid(p: Program, pos: nat, code: Code): (end: Option<nat>)
    ensures end.Some? ==> pos < end.value <= |p|
    decreases code
  {
    var i := Fetch(p, pos);
    if i.None? then None
    else
      var op, next := i.value.op, i.value.next;
      match code
      case Answer(asn) => if op == Return(asn) then Some(next) else None
      case Guard(pattern, rest) => if op == Match(pattern) then Laid(p, next, rest) else None
      case Fallback(asn, rest) => if op == Default(asn) then Laid(p, next, rest) else None
      case Choice(zero, one) =>
        if op.Jump? && Laid(p, next, zero) == Some(next + op.offset) then Laid(p, next + op.offset, one) else None
  }

  // ----- Meaning -----

  /** The address bits code may consume. */
  function Reach(code: Code): nat {
    match code
    case Answer(_) => 0
    case Choice(zero, one) => 1 + if Reach(zero) >= Reach(one) then Reach(zero) else Reach(one)
    case Guard(pattern, rest) => MatchLen(pattern) + Reach(rest)
    case Fallback(_, rest) => Reach(rest)
  }

  /**
   What code says about an address: a choice consumes one bit, a guard the bits
   of its pattern below the leading one, and a fallback is the answer of every
   guard that fails under it.
   */
  function Eval(code: Code, address: seq<bool>, default: nat): Outcome
    requires Reach(code) <= |address|
  {
    match code
    case Answer(asn) => Returned(asn)
    case Choice(zero, one) => Eval(if address[0] then one else zero, address[1..], default)
    case Guard(pattern, rest) =>
      var n := MatchLen(pattern);
      if address[..n] == LowBits(pattern, n) then Eval(rest, address[n..], default) else Diverged(default)
    case Fallback(asn, rest) => Eval(rest, address, asn)
  }

  /** Running laid-out code evaluates it. */
  lemma {:induction false} RunIsEval(p: Program, pos: nat, code: Code, address: seq<bool>, default: nat)
    requires Laid(p, pos, code).Some? && Reach(code) <= |address|
    ensures Run(p, pos, address, default) == Eval(code, address, default)
    decreases code
  {
    hide Fetch, LowBits, MatchLen;
    var i := Fetch(p, pos).value;
    match code {
      case Answer(_) =>
      case Choice(zero, one) =>
        if address[0] {
          RunIsEval(p, i.next + i.op.offset, one, address[1..], default);
        } else {
          RunIsEval(p, i.next, zero, address[1..], default);
        }
      case Guard(pattern, rest) =>
        if address[..MatchLen(pattern)] == LowBits(pattern, MatchLen(pattern)) {
          RunIsEval(p, i.next, rest, address[MatchLen(pattern)..], default);
        }
      case Fallback(asn, rest) => RunIsEval(p, i.next, rest, address, asn);
    }
  }

  // ----- Defaults over whole runs -----

  /** The instructions a lookup executes, in order. */
  function Trace(p: Program, pos: nat, address: seq<bool>): seq<Op>
    decreases |p| - pos
  {
    if pos >= |p| || Fetch(p, pos).None? then []
    else
      var i := Fetch(p, pos).value;
      match Execute(i.op, i.next, |p|, address, 0)
      case Stop(_) => [i.op]
      case Goto(target, rest, _) => [i.op] + Trace(p, target, rest)
  }

  /** The ASN of the last DEFAULT among some instructions, or another answer if there is none. */
  function LastDefault(ops: seq<Op>, otherwise: nat): nat {
    if ops == [] then otherwise
    else if ops[|ops| - 1].Default? then ops[|ops| - 1].asn
    else LastDefault(ops[..|ops| - 1], otherwise)
  }

  lemma {:induction false} LastDefaultOf(op: Op, ops: seq<Op>, otherwise: nat)
    ensures LastDefault([op] + ops, otherwise) == LastDefault(ops, if op.Default? then op.asn else otherwise)
  {
    var all, n := [op] + ops, |ops|;
    if n == 0 {
      assert all[..0] == [];
    } else if !ops[n - 1].Default? {
      assert all[..n] == [op] + ops[..n - 1];
      LastDefaultOf(op, ops[..n - 1], otherwise);
    }
  }

  /**
   A lookup that diverges answers the ASN of the last DEFAULT it executed, or
   what it started with; one that returns answers the RETURN it ended at.
   */
  lemma {:induction false} AnswersByTrace(p: Program, pos: nat, address: seq<bool>, default: nat)
    ensures var ops, outcome := Trace(p, pos, address), Run(p, pos, address, default);
            match outcome
            case Returned(asn) => ops != [] && ops[|ops| - 1] == Return(asn)
            case Diverged(asn) => ops != [] && ops[|ops| - 1].Match? && asn == LastDefault(ops, default)
            case Malformed => true
    decreases |p| - pos
  {
    hide Fetch, LowBits, MatchLen;
    if pos < |p| && Fetch(p, pos).Some? {
      var i := Fetch(p, pos).value;
      match Execute(i.op, i.next, |p|, address, 0) {
        case Stop(_) => assert [i.op][..0] == [];
        case Goto(target, rest, _) =>
          AnswersByTrace(p, target, rest, if i.op.Default? then i.op.asn else default);
          LastDefaultOf(i.op, Trace(p, target, rest), default);
      }
    }
  }

  /** After a DEFAULT nothing before it matters, and a MATCH that fails at once answers it. */
  lemma DefaultDecides(p: Program, pos: nat, asn: nat, next: nat, address: seq<bool>, d: nat, e: nat)
    requires pos < |p| && Fetch(p, pos) == Some(Instruction(Default(asn), next))
    ensures Run(p, pos, address, d) == Run(p, pos, address, e)
    ensures next < |p| && Fetch(p, next).Some? && Fetch(p, next).value.op.Match? ==>
              var n := MatchLen(Fetch(p, next).value.op.pattern);
              n <= |address| && address[..n] != LowBits(Fetch(p, next).value.op.pattern, n) ==>
                Run(p, pos, address, d) == Diverged(asn)
  {
    hide Fetch, LowBits, MatchLen;
  }

  // ----- Which programs are accepted -----

  /** What stands directly before some code on its way from the root. */
  datatype Before = Nothing | ShortGuard | FullGuard | AFallback

  /**
   Legal code: enough address bits on every path, no fallback directly before
   an answer or another fallback, and no guard of fewer than eight bits
   directly after another such guard.
   */
  predicate Legal(code: Code, bits: nat, before: Before) {
    match code
    case Answer(_) => before != AFallback
    case Choice(zero, one) => bits >= 1 && Legal(zero, bits - 1, Nothing) && Legal(one, bits - 1, Nothing)
    case Guard(pattern, rest) =>
      var n := MatchLen(pattern);
      && n <= bits && !(n < 8 && before == ShortGuard)
      && Legal(rest, bits - n, if n < 8 then ShortGuard else FullGuard)
    case Fallback(_, rest) => before != AFallback && Legal(rest, bits, AFallback)
  }

  function BeforeOf(c: Checker): Before {
    match c.previous
    case AfterJump => Nothing
    case AfterDefault => AFallback
    case AfterMatch => if c.incomplete then ShortGuard else FullGuard
  }

  /** The pending branches are laid out and legal one after the other, and clean padding follows the last. */
  ghost predicate Follows(p: Program, end: nat, jumps: seq<Pending>)
    requires end <= |p|
    decreases |jumps|, 1
  {
    if jumps == [] then CleanPadding(p, end)
    else end == Last(jumps).target && exists code: Code :: Branches(p, code, jumps)
  }

  /** The top pending branch is `code`, and the others follow. */
  ghost predicate Branches(p: Program, code: Code, jumps: seq<Pending>)
    requires jumps != []
    decreases |jumps|, 0
  {
    && Laid(p, Last(jumps).target, code).Some? && Legal(code, Last(jumps).bits, Nothing)
    && Follows(p, Laid(p, Last(jumps).target, code).value, jumps[..|jumps| - 1])
  }

  /** Legal code ahead of the validator, and legal branches pending. */
  ghost predicate Ahead(p: Program, c: Checker, code: Code) {
    Laid(p, c.pos, code).Some? && Legal(code, c.bits, BeforeOf(c)) && Follows(p, Laid(p, c.pos, code).value, c.jumps)
  }

  /** What the validator accepts from here on is a legal tree, with legal branches pending. */
  lemma {:induction false} AcceptedIsLegal(p: Program, c: Checker) returns (code: Code)
    requires Check(p, c)
    ensures Ahead(p, c, code)
    decreases |p| - c.pos
  {
    hide Fetch, MatchLen, CleanPadding, Laid, Legal, Follows, Branches, Ahead;
    var i := Fetch(p, c.pos).value;
    var v := CheckStep(p, c);
    match i.op {
      case Return(asn) =>
        code := Answer(asn);
        if c.jumps == [] {
          AnswerEnds(p, c, asn);
        } else {
          var branch := AcceptedIsLegal(p, v.next);
          AnswerResumes(p, c, asn, branch);
        }
      case Jump(offset) =>
        var zero := AcceptedIsLegal(p, v.next);
        var one := ChoiceOf(p, c, zero);
        code := Choice(zero, one);
      case Match(pattern) =>
        var rest := AcceptedIsLegal(p, v.next);
        code := Guard(pattern, rest);
        GuardAhead(p, c, code);
      case Default(asn) =>
        var rest := AcceptedIsLegal(p, v.next);
        code := Fallback(asn, rest);
        FallbackAhead(p, c, code);
    }
  }

  lemma AnswerEnds(p: Program, c: Checker, asn: nat)
    requires CheckStep(p, c) != Reject && Fetch(p, c.pos).Some? && Fetch(p, c.pos).value.op == Return(asn)
             && c.jumps == []
    ensures Ahead(p, c, Answer(asn))
  {
    hide Fetch, MatchLen;
  }

  lemma AnswerResumes(p: Program, c: Checker, asn: nat, branch: Code)
    requires CheckStep(p, c).Continue? && Fetch(p, c.pos).Some? && Fetch(p, c.pos).value.op == Return(asn)
             && c.jumps != []
    requires Ahead(p, CheckStep(p, c).next, branch)
    ensures Ahead(p, c, Answer(asn))
  {
    hide Fetch, MatchLen, CleanPadding;
    assert Branches(p, branch, c.jumps);
  }

  lemma ChoiceOf(p: Program, c: Checker, zero: Code) returns (one: Code)
    requires CheckStep(p, c).Continue? && Fetch(p, c.pos).Some? && Fetch(p, c.pos).value.op.Jump?
    requires Ahead(p, CheckStep(p, c).next, zero)
    ensures Ahead(p, c, Choice(zero, one))
  {
    hide Fetch, MatchLen, CleanPadding;
    var d := CheckStep(p, c).next;
    assert d.jumps[..|c.jumps|] == c.jumps;
    one := TopBranch(p, Laid(p, d.pos, zero).value, d.jumps);
  }

  lemma TopBranch(p: Program, end: nat, jumps: seq<Pending>) returns (code: Code)
    requires end <= |p| && jumps != [] && Follows(p, end, jumps)
    ensures end == Last(jumps).target && Branches(p, code, jumps)
  {
    hide Branches;
    code :| Branches(p, code, jumps);
  }

  lemma GuardAhead(p: Program, c: Checker, code: Code)
    requires code.Guard? && Fetch(p, c.pos).Some? && Fetch(p, c.pos).value.op == Match(code.pattern)
    requires CheckStep(p, c).Continue? && Ahead(p, CheckStep(p, c).next, code.rest)
    ensures Ahead(p, c, code)
  {
    hide Fetch, MatchLen, CleanPadding, Follows;
  }

  lemma FallbackAhead(p: Program, c: Checker, code: Code)
    requires code.Fallback? && Fetch(p, c.pos).Some? && Fetch(p, c.pos).value.op == Default(code.asn)
    requires CheckStep(p, c).Continue? && Ahead(p, CheckStep(p, c).next, code.rest)
    ensures Ahead(p, c, code)
  {
    hide Fetch, MatchLen, CleanPadding, Follows;
  }

  /** A legal tree ahead with legal branches pending is accepted. */
  lemma {:induction false} LegalIsAccepted(p: Program, c: Checker, code: Code)
    requires Ahead(p, c, code)
    ensures Check(p, c)
    decreases |p| - c.pos
  {
    hide CheckStep, Laid, Legal, Follows, Branches, Ahead;
    var v := CheckStep(p, c);
    match code {
      case Answer(asn) =>
        if c.jumps == [] {
          AnswerAccepted(p, c, code);
        } else {
          var branch := AnswerContinues(p, c, code);
          LegalIsAccepted(p, v.next, branch);
        }
      case Choice(zero, one) =>
        ChoiceContinues(p, c, code);
        LegalIsAccepted(p, v.next, zero);
      case Guard(pattern, rest) =>
        GuardContinues(p, c, code);
        LegalIsAccepted(p, v.next, rest);
      case Fallback(asn, rest) =>
        FallbackContinues(p, c, code);
        LegalIsAccepted(p, v.next, rest);
    }
  }

  lemma AnswerAccepted(p: Program, c: Checker, code: Code)
    requires Ahead(p, c, code) && code.Answer? && c.jumps == []
    ensures CheckStep(p, c) == Accept
  {
    hide Fetch, MatchLen;
  }

  lemma AnswerContinues(p: Program, c: Checker, code: Code) returns (branch: Code)
    requires Ahead(p, c, code) && code.Answer? && c.jumps != []
    ensures CheckStep(p, c).Continue? && Ahead(p, CheckStep(p, c).next, branch)
  {
    hide Fetch, MatchLen, CleanPadding;
    branch := TopBranch(p, Laid(p, c.pos, code).value, c.jumps);
  }

  lemma ChoiceContinues(p: Program, c: Checker, code: Code)
    requires Ahead(p, c, code) && code.Choice?
    ensures CheckStep(p, c).Continue? && Ahead(p, CheckStep(p, c).next, code.zero)
  {
    hide Fetch, MatchLen, CleanPadding;
    var i := Fetch(p, c.pos).value;
    var jumps := c.jumps + [Pending(i.next + i.op.offset, c.bits - 1)];
    assert jumps[..|c.jumps|] == c.jumps && Last(jumps) == Pending(i.next + i.op.offset, c.bits - 1);
    assert Branches(p, code.one, jumps);
  }

  lemma GuardContinues(p: Program, c: Checker, code: Code)
    requires Ahead(p, c, code) && code.Guard?
    ensures CheckStep(p, c).Continue? && Ahead(p, CheckStep(p, c).next, code.rest)
  {
    hide Fetch, MatchLen, CleanPadding;
  }

  lemma FallbackContinues(p: Program, c: Checker, code: Code)
    requires Ahead(p, c, code) && code.Fallback?
    ensures CheckStep(p, c).Continue? && Ahead(p, CheckStep(p, c).next, code.rest)
  {
    hide Fetch, MatchLen, CleanPadding;
  }

  /** A whole program: legal code for a 128-bit address and at most seven clear bits. */
  predicate Whole(p: Program, code: Code) {
    Laid(p, 0, code).Some? && Legal(code, 128, Nothing) && CleanPadding(p, Laid(p, 0, code).value)
  }

  lemma WholeIsAhead(p: Program, code: Code)
    ensures Ahead(p, START, code) <==> Whole(p, code)
  {
    hide Laid, Legal, CleanPadding;
  }

  /** A program is accepted exactly when it is the layout of some legal code. */
  lemma AcceptedExactlyWhen(p: Program)
    ensures Check(p, START) <==> exists code: Code :: Whole(p, code)
  {
    hide Check, Whole, Ahead;
    if Check(p, START) {
      var code := AcceptedIsLegal(p, START);
      WholeIsAhead(p, code);
    }
    forall code: Code | Whole(p, code) ensures Check(p, START) {
      WholeIsAhead(p, code);
      LegalIsAccepted(p, START, code);
    }
  }

  lemma {:induction false} LegalReach(code: Code, bits: nat, before: Before)
    requires Legal(code, bits, before)
    ensures Reach(code) <= bits
    decreases code
  {
    hide MatchLen;
    match code {
      case Answer(_) =>
      case Choice(zero, one) =>
        LegalReach(zero, bits - 1, Nothing);
        LegalReach(one, bits - 1, Nothing);
      case Guard(pattern, rest) =>
        LegalReach(rest, bits - MatchLen(pattern), if MatchLen(pattern) < 8 then ShortGuard else FullGuard);
      case Fallback(_, rest) => LegalReach(rest, bits, AFallback);
    }
  }

  /** An accepted program means its code: every lookup evaluates it. */
  lemma AcceptedMeans(p: Program, address: seq<bool>) returns (code: Code)
    requires Check(p, START) && |address| == ADDRESS_BITS
    ensures Whole(p, code) && Reach(code) <= |address|
    ensures Run(p, 0, address, 0) == Eval(code, address, 0)
  {
    hide Check, Laid, Legal, Ahead, Eval, Run;
    code := AcceptedIsLegal(p, START);
    WholeIsAhead(p, code);
    LegalReach(code, 128, Nothing);
    RunIsEval(p, 0, code, address, 0);
  }
}
