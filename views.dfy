/**
 * Every parser of the library only ever calls `remove_prefix` on the view
 * it is given (or works on a copy and commits it with `remove_prefix`), so
 * the view a call leaves behind is always a suffix of the one it received.
 * This module proves that of the reference semantics, one lemma per
 * function of Semantics, by the same recursion.
 */
module Views {
  import opened Parsers
  import opened Semantics

  lemma {:induction false} RunSuffix(env: Env, p: Parser, s: seq<char>, fuel: nat)
    ensures IsSuffix(Run(env, p, s, fuel).rest, s)
    decreases fuel, Size(p), 0, 0
  {
    StepSuffix(env, p.form, s, fuel);
  }

  lemma {:induction false} StepSuffix(env: Env, f: Form, s: seq<char>, fuel: nat)
    ensures IsSuffix(Step(env, f, s, fuel).rest, s)
    decreases fuel, FormSize(f), 2, 0
  {
    match f
    case Sequence(a, b) => SequenceSuffix(env, a, b, s, fuel);
    case Choice(a, b) => ChoiceSuffix(env, a, b, s, fuel);
    case Attempt(q) => AttemptSuffix(env, q, s, fuel);
    case Star(q) => StarSuffix(env, q, s, fuel);
    case Plus(q) => PlusSuffix(env, q, s, fuel);
    case Until(q) => UntilSuffix(env, q, s, fuel);
    case Exclude(a, b) => ExcludeSuffix(env, a, b, s, fuel);
    case Span(o, c) => SpanSuffix(env, o, c, s, fuel);
    case Nested(o, e, c) => NestedSuffix(env, o, e, c, s, fuel);
    case Repeat(n, q) => RepeatSuffix(env, n, q, s, fuel);
    case Rule(name) => RuleSuffix(env, name, s, fuel);
    case _ => PrimitiveSuffix(f, s);
  }

  lemma PrimitiveSuffix(f: Form, s: seq<char>)
    requires f.Char? || f.Literal? || f.Class? || f.Digit? || f.Integer? || f.Decimal?
    ensures IsSuffix(Primitive(f, s).rest, s)
  {
    var r := Primitive(f, s);
    assert r.rest == s[|s| - |r.rest|..];
    DropIsSuffix(s, |s| - |r.rest|);
  }

  lemma {:induction false} SequenceSuffix(env: Env, a: Parser, b: Parser, s: seq<char>, fuel: nat)
    ensures IsSuffix(RunSequence(env, a, b, s, fuel).rest, s)
    decreases fuel, Size(a) + Size(b) + 1, 1, 0
  {
    var ra := Run(env, a, s, fuel);
    RunSuffix(env, a, s, fuel);
    if ra.out.Match? {
      RunSuffix(env, b, ra.rest, fuel);
      SuffixTrans(Run(env, b, ra.rest, fuel).rest, ra.rest, s);
    }
  }

  lemma {:induction false} ChoiceSuffix(env: Env, a: Parser, b: Parser, s: seq<char>, fuel: nat)
    ensures IsSuffix(RunChoice(env, a, b, s, fuel).rest, s)
    decreases fuel, Size(a) + Size(b) + 1, 1, 0
  {
    var ra := Run(env, a, s, fuel);
    RunSuffix(env, a, s, fuel);
    if ra.out.NoMatch? {
      RunSuffix(env, b, ra.rest, fuel);
      SuffixTrans(Run(env, b, ra.rest, fuel).rest, ra.rest, s);
    }
  }

  lemma {:induction false} AttemptSuffix(env: Env, q: Parser, s: seq<char>, fuel: nat)
    ensures IsSuffix(RunAttempt(env, q, s, fuel).rest, s)
    decreases fuel, Size(q) + 1, 1, 0
  {
    if |s| > 0 {
      RunSuffix(env, q, s, fuel);
    }
  }

  lemma {:induction false} StarLoopSuffix(env: Env, q: Parser, cur: seq<char>, acc: seq<char>,
                                          ev: seq<Event>, fuel: nat)
    ensures IsSuffix(StarLoop(env, q, cur, acc, ev, fuel).rest, cur)
    decreases fuel, Size(q) + 1, 0, |cur|
  {
    var t := Run(env, q, cur, fuel);
    RunSuffix(env, q, cur, fuel);
    if t.out.Match? && |t.rest| < |cur| {
      StarLoopSuffix(env, q, t.rest, acc + CharOf(t.out.v), ev + t.events, fuel);
      SuffixTrans(StarLoop(env, q, t.rest, acc + CharOf(t.out.v), ev + t.events, fuel).rest, t.rest, cur);
    }
  }

  lemma {:induction false} StarSuffix(env: Env, q: Parser, s: seq<char>, fuel: nat)
    ensures IsSuffix(RunStar(env, q, s, fuel).rest, s)
    decreases fuel, Size(q) + 1, 1, 0
  {
    if |s| > 0 {
      StarLoopSuffix(env, q, s, [], [], fuel);
    }
  }

  lemma {:induction false} PlusSuffix(env: Env, q: Parser, s: seq<char>, fuel: nat)
    ensures IsSuffix(RunPlus(env, q, s, fuel).rest, s)
    decreases fuel, Size(q) + 1, 1, 0
  {
    if |s| > 0 {
      var t := Run(env, q, s, fuel);
      RunSuffix(env, q, s, fuel);
      if t.out.Match? {
        StarLoopSuffix(env, q, t.rest, CharOf(t.out.v), t.events, fuel);
        SuffixTrans(StarLoop(env, q, t.rest, CharOf(t.out.v), t.events, fuel).rest, t.rest, s);
      }
    }
  }

  lemma {:induction false} ScanLoopSuffix(env: Env, q: Parser, last: Outcome, cur: seq<char>,
                                          acc: seq<char>, ev: seq<Event>, fuel: nat)
    ensures IsSuffix(ScanLoop(env, q, last, cur, acc, ev, fuel).rest, cur)
    decreases fuel, Size(q) + 1, 0, |cur|
  {
    if !last.Fault? && last.NoMatch? && |cur| > 0 {
      var t := Run(env, q, cur[1..], fuel);
      RunSuffix(env, q, cur[1..], fuel);
      ScanLoopSuffix(env, q, t.out, t.rest, acc + [cur[0]], ev + t.events, fuel);
      DropIsSuffix(cur, 1);
      SuffixTrans(t.rest, cur[1..], cur);
      SuffixTrans(ScanLoop(env, q, t.out, t.rest, acc + [cur[0]], ev + t.events, fuel).rest, t.rest, cur);
    }
  }

  lemma {:induction false} UntilSuffix(env: Env, q: Parser, s: seq<char>, fuel: nat)
    ensures IsSuffix(RunUntil(env, q, s, fuel).rest, s)
    decreases fuel, Size(q) + 1, 1, 0
  {
    if |s| > 0 {
      var t := Run(env, q, s, fuel);
      RunSuffix(env, q, s, fuel);
      ScanLoopSuffix(env, q, t.out, t.rest, [], t.events, fuel);
      SuffixTrans(ScanLoop(env, q, t.out, t.rest, [], t.events, fuel).rest, t.rest, s);
    }
  }

  lemma {:induction false} ExcludeSuffix(env: Env, a: Parser, b: Parser, s: seq<char>, fuel: nat)
    ensures IsSuffix(RunExclude(env, a, b, s, fuel).rest, s)
    decreases fuel, Size(a) + Size(b) + 1, 1, 0
  {
    var r := RunExclude(env, a, b, s, fuel);
    if r.rest != s {
      assert r.rest == s[|s| - |r.rest|..];
      DropIsSuffix(s, |s| - |r.rest|);
    }
  }

  lemma {:induction false} BalanceSuffix(env: Env, o: Parser, c: Parser, cur: seq<char>, depth: nat,
                                         closeLen: nat, ev: seq<Event>, fuel: nat)
    ensures IsSuffix(BalanceLoop(env, o, c, cur, depth, closeLen, ev, fuel).rest, cur)
    decreases fuel, Size(o) + Size(c) + 1, 0, 2 * |cur| + depth
  {
    if depth > 0 && |cur| > 0 {
      var rc := Run(env, c, cur, fuel);
      RunSuffix(env, c, cur, fuel);
      if rc.out.Match? {
        var l := BalanceLoop(env, o, c, rc.rest, depth - 1, |cur| - |rc.rest|, ev + rc.events, fuel);
        BalanceSuffix(env, o, c, rc.rest, depth - 1, |cur| - |rc.rest|, ev + rc.events, fuel);
        SuffixTrans(l.rest, rc.rest, cur);
      } else if rc.out.NoMatch? {
        var ro := Run(env, o, rc.rest, fuel);
        var ev' := ev + rc.events + ro.events;
        RunSuffix(env, o, rc.rest, fuel);
        SuffixTrans(ro.rest, rc.rest, cur);
        if ro.out.Match? && |ro.rest| < |cur| {
          var l := BalanceLoop(env, o, c, ro.rest, depth + 1, closeLen, ev', fuel);
          BalanceSuffix(env, o, c, ro.rest, depth + 1, closeLen, ev', fuel);
          SuffixTrans(l.rest, ro.rest, cur);
        } else if ro.out.NoMatch? && |ro.rest| > 0 {
          var l := BalanceLoop(env, o, c, ro.rest[1..], depth, closeLen, ev', fuel);
          BalanceSuffix(env, o, c, ro.rest[1..], depth, closeLen, ev', fuel);
          SuffixDrop(ro.rest, cur, 1);
          SuffixTrans(l.rest, ro.rest[1..], cur);
        }
      }
    }
  }

  lemma {:induction false} SpanSuffix(env: Env, o: Parser, c: Parser, s: seq<char>, fuel: nat)
    ensures IsSuffix(RunSpan(env, o, c, s, fuel).rest, s)
    decreases fuel, Size(o) + Size(c) + 1, 1, 0
  {
    if |s| > 0 {
      var ro := Run(env, o, s, fuel);
      RunSuffix(env, o, s, fuel);
      if ro.out.Match? {
        BalanceSuffix(env, o, c, ro.rest, 1, 0, ro.events, fuel);
        SuffixTrans(BalanceLoop(env, o, c, ro.rest, 1, 0, ro.events, fuel).rest, ro.rest, s);
      }
    }
  }

  lemma {:induction false} NestedSuffix(env: Env, o: Parser, e: Parser, c: Parser, s: seq<char>, fuel: nat)
    ensures IsSuffix(RunNested(env, o, e, c, s, fuel).rest, s)
    decreases fuel, Size(o) + Size(e) + Size(c) + 1, 1, 0
  {
    if |s| > 0 {
      var ro := Run(env, o, s, fuel);
      RunSuffix(env, o, s, fuel);
      if ro.out.Match? {
        var l := BalanceLoop(env, o, c, ro.rest, 1, 0, ro.events, fuel);
        BalanceSuffix(env, o, c, ro.rest, 1, 0, ro.events, fuel);
        SuffixTrans(l.rest, ro.rest, s);
      }
    }
  }

  lemma {:induction false} RepeatLoopSuffix(env: Env, q: Parser, left: nat, cur: seq<char>, all: bool,
                                            acc: seq<char>, ev: seq<Event>, fuel: nat)
    ensures IsSuffix(RepeatLoop(env, q, left, cur, all, acc, ev, fuel).rest, cur)
    decreases fuel, Size(q) + 1, 0, left
  {
    if left > 0 {
      var t := Run(env, q, cur, fuel);
      RunSuffix(env, q, cur, fuel);
      if !t.out.Fault? {
        var all' := all && t.out.Match?;
        var acc' := if t.out.Match? then acc + CharOf(t.out.v) else acc;
        RepeatLoopSuffix(env, q, left - 1, t.rest, all', acc', ev + t.events, fuel);
        SuffixTrans(RepeatLoop(env, q, left - 1, t.rest, all', acc', ev + t.events, fuel).rest, t.rest, cur);
      }
    }
  }

  lemma {:induction false} RepeatSuffix(env: Env, n: nat, q: Parser, s: seq<char>, fuel: nat)
    ensures IsSuffix(RunRepeat(env, n, q, s, fuel).rest, s)
    decreases fuel, Size(q) + 1, 1, 0
  {
    if |s| > 0 {
      RepeatLoopSuffix(env, q, n, s, true, [], [], fuel);
    }
  }

  lemma {:induction false} RuleSuffix(env: Env, name: string, s: seq<char>, fuel: nat)
    ensures IsSuffix(RunRule(env, name, s, fuel).rest, s)
    decreases fuel, 1, 1, 0
  {
    if name in env && fuel > 0 {
      RunSuffix(env, env[name], s, fuel - 1);
    }
  }
}
