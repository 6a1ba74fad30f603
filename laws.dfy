/**
 * Laws of the combinators of Parser.hpp, stated on the reference
 * semantics.  They make precise which combinators work on a copy of the
 * view (sequence, `-`, both `pair`s: the view is unchanged on failure)
 * and which advance the caller's view directly (`|`, `!`, `*`, `+`, `~`,
 * `repeat`: consumption survives a failure).
 */
module Laws {
  import opened Parsers
  import opened Semantics
  import opened Views
  import opened Tokens

  // ------------------------------------------------------ reference views

  /** The length of the longest prefix of `s` in class `k`. */
  function ClassRun(k: CharClass, s: seq<char>): (n: nat)
    ensures n <= |s|
    ensures forall j :: 0 <= j < n ==> InClass(k, s[j])
    ensures n == |s| || !InClass(k, s[n])
  {
    if |s| > 0 && InClass(k, s[0]) then 1 + ClassRun(k, s[1..]) else 0
  }

  /** The position of the first `c` in `s`, or `|s|` when there is none. */
  function IndexOf(c: char, s: seq<char>): (i: nat)
    ensures i <= |s|
    ensures forall j :: 0 <= j < i ==> s[j] != c
    ensures i < |s| ==> s[i] == c
  {
    if |s| == 0 || s[0] == c then 0 else 1 + IndexOf(c, s[1..])
  }

  /** The first `c` is at `i` when `t[i]` is a `c` and no char before it is. */
  lemma {:induction false} IndexOfAt(c: char, t: seq<char>, i: nat)
    requires i < |t| && t[i] == c
    requires forall j :: 0 <= j < i ==> t[j] != c
    ensures IndexOf(c, t) == i
  {
    if i > 0 {
      IndexOfAt(c, t[1..], i - 1);
    }
  }

  /** The nesting depth a char changes for the depth scan with opener `p`
      and closer `q`; the closer is tested first. */
  function Delta(p: char, q: char, x: char): int
  {
    if x == q then -1 else if x == p then 1 else 0
  }

  /** Openers minus closers in `t`. */
  function Depth(p: char, q: char, t: seq<char>): int
  {
    if t == [] then 0 else Delta(p, q, t[0]) + Depth(p, q, t[1..])
  }

  /** From depth `d`, the first `n` chars of `t` bring the depth to 0 and no
      shorter prefix does. */
  predicate Closes(p: char, q: char, t: seq<char>, d: nat, n: nat)
  {
    0 < n <= |t| && d + Depth(p, q, t[..n]) == 0 &&
    forall j :: 0 <= j < n ==> d + Depth(p, q, t[..j]) > 0
  }

  /** From depth `d`, no prefix of `t` brings the depth to 0. */
  predicate NeverCloses(p: char, q: char, t: seq<char>, d: nat)
  {
    forall j :: 0 <= j <= |t| ==> d + Depth(p, q, t[..j]) > 0
  }

  lemma DepthCons(p: char, q: char, t: seq<char>, j: nat)
    requires j < |t|
    ensures Depth(p, q, t[..j + 1]) == Delta(p, q, t[0]) + Depth(p, q, t[1..][..j])
  {
    assert t[..j + 1][1..] == t[1..][..j];
  }

  /** A parser built by a builder carries no action: running it is running
      its form. */
  lemma PlainRun(env: Env, f: Form, s: seq<char>, fuel: nat)
    ensures Run(env, Plain(f), s, fuel) == Step(env, f, s, fuel)
  {
    var m := Step(env, f, s, fuel);
    if m.out.Match? {
      assert m.events + [] == m.events;
    }
  }

  // ------------------------------------------------------------ sequence

  /** `a >> b` (Parser.hpp:393-495): it matches when both operands match in
      turn; on failure the view is as it was, though the actions of the
      operands that ran have fired; on success it consumes what `a`
      consumed and then what `b` consumed. */
  lemma ThenLaw(env: Env, a: Parser, b: Parser, s: seq<char>, fuel: nat)
    ensures var r := Run(env, Then(a, b), s, fuel);
      var ra := Run(env, a, s, fuel);
      var rb := Run(env, b, ra.rest, fuel);
      (r.out.Match? <==> ra.out.Match? && rb.out.Match?) &&
      (r.out.Fault? <==> ra.out.Fault? || (ra.out.Match? && rb.out.Fault?)) &&
      (!r.out.Match? ==> r.rest == s) &&
      (r.out.Match? ==> r.rest == rb.rest &&
                        s == s[..|s| - |ra.rest|] + ra.rest[..|ra.rest| - |rb.rest|] + r.rest) &&
      r.events == ra.events + (if ra.out.Match? then rb.events else [])
  {
    ThenIs(env, a, b, s, fuel);
    var ra := Run(env, a, s, fuel);
    if ra.out.Match? {
      RunSuffix(env, a, s, fuel);
      RunSuffix(env, b, ra.rest, fuel);
      Concat3(s, ra.rest, Run(env, b, ra.rest, fuel).rest);
    }
  }

  lemma ThenIs(env: Env, a: Parser, b: Parser, s: seq<char>, fuel: nat)
    ensures Run(env, Then(a, b), s, fuel) == RunSequence(env, a, b, s, fuel)
  {
    PlainRun(env, Sequence(a, b), s, fuel);
  }

  lemma Concat3(s: seq<char>, t: seq<char>, u: seq<char>)
    requires IsSuffix(t, s) && IsSuffix(u, t)
    ensures s == s[..|s| - |t|] + t[..|t| - |u|] + u
  {
    SuffixSlice(t, s);
    SuffixSlice(u, t);
    assert t == t[..|t| - |u|] + u;
    assert s == s[..|s| - |t|] + t;
  }

  /** `>>` is associative: how a chain of three is grouped changes nothing. */
  lemma ThenAssoc(env: Env, a: Parser, b: Parser, c: Parser, s: seq<char>, fuel: nat)
    ensures Run(env, Then(Then(a, b), c), s, fuel) == Run(env, Then(a, Then(b, c)), s, fuel)
  {
    ThenIs(env, Then(a, b), c, s, fuel);
    ThenIs(env, a, b, s, fuel);
    ThenIs(env, a, Then(b, c), s, fuel);
    var ra := Run(env, a, s, fuel);
    if ra.out.Match? {
      ThenIs(env, b, c, ra.rest, fuel);
      var rb := Run(env, b, ra.rest, fuel);
      if rb.out.Match? {
        var rc := Run(env, c, rb.rest, fuel);
        assert ra.events + rb.events + rc.events == ra.events + (rb.events + rc.events);
      }
    }
  }

  // -------------------------------------------------------------- choice

  /** `a | b` (Parser.hpp:501-546): left-biased and short-circuit.  When `a`
      matches, `b` never runs; otherwise `b` runs on the view as `a` left
      it, and the choice matches exactly when `b` does. */
  lemma OrLaw(env: Env, a: Parser, b: Parser, s: seq<char>, fuel: nat)
    ensures var r := Run(env, Or(a, b), s, fuel);
      var ra := Run(env, a, s, fuel);
      var rb := Run(env, b, ra.rest, fuel);
      (ra.out.Match? ==> r == Result(Match(Flag), ra.rest, ra.events)) &&
      (ra.out.Fault? ==> r == ra) &&
      (ra.out.NoMatch? ==> r.rest == rb.rest && r.events == ra.events + rb.events &&
                           (r.out.Match? <==> rb.out.Match?) && (r.out.Fault? <==> rb.out.Fault?))
  {
    PlainRun(env, Choice(a, b), s, fuel);
    assert Step(env, Choice(a, b), s, fuel) == RunChoice(env, a, b, s, fuel);
  }

  /** Because `b` sees what `a` left, a choice can match where neither
      operand matches the view it was given: `~ch_p('x')` consumes the 'x'
      of "xy" and fails, and `ch_p('y')` then matches the 'y'. */
  lemma ChoiceSeesLeftover(env: Env, fuel: nat)
    ensures Run(env, UpTo(ChP('x')), "xy", fuel).out == NoMatch
    ensures Run(env, ChP('y'), "xy", fuel).out == NoMatch
    ensures Run(env, Or(UpTo(ChP('x')), ChP('y')), "xy", fuel) == Result(Match(Flag), [], [])
  {
    UntilChar(env, 'x', "xy", fuel);
    OrLaw(env, UpTo(ChP('x')), ChP('y'), "xy", fuel);
    assert "xy"[1..] == "y";
    CharLaw(env, 'y', "y", fuel);
  }

  // ------------------------------------------------------------ attempt

  /** `!p` (Parser.hpp:550-563): no match on an empty view; otherwise it
      runs `p`, keeps whatever `p` consumed, and matches whether or not `p`
      did. */
  lemma TryLaw(env: Env, q: Parser, s: seq<char>, fuel: nat)
    ensures var r := Run(env, Try(q), s, fuel);
      var t := Run(env, q, s, fuel);
      (|s| == 0 ==> r == Result(NoMatch, s, [])) &&
      (|s| > 0 ==> r.rest == t.rest && r.events == t.events && (r.out.Match? <==> !t.out.Fault?))
  {
    PlainRun(env, Attempt(q), s, fuel);
    assert Step(env, Attempt(q), s, fuel) == RunAttempt(env, q, s, fuel);
  }

  // ------------------------------------------------------- star and plus

  /** `*p` (Parser.hpp:565-605): no match on an empty view, and on any
      other view it never reports no match. */
  lemma StarLaw(env: Env, q: Parser, s: seq<char>, fuel: nat)
    ensures var r := Run(env, Many(q), s, fuel);
      (|s| == 0 ==> r == Result(NoMatch, s, [])) &&
      (|s| > 0 ==> r.out.Match? || r.out.Fault?)
  {
    PlainRun(env, Star(q), s, fuel);
    assert Step(env, Star(q), s, fuel) == RunStar(env, q, s, fuel);
  }

  /** `*p` unfolded: the loop from an empty buffer on a non-empty view. */
  lemma StarIs(env: Env, q: Parser, s: seq<char>, fuel: nat)
    ensures |s| > 0 ==>
      var l := StarLoop(env, q, s, [], [], fuel);
      Run(env, Many(q), s, fuel) == Result(Collected(q, l.out), l.rest, l.events)
  {
    PlainRun(env, Star(q), s, fuel);
    assert Step(env, Star(q), s, fuel) == RunStar(env, q, s, fuel);
  }

  /** One turn of the `*` loop (Parser.hpp:577-581): the first failure of
      `p` ends the loop as a match, with what that failure consumed kept;
      a match that consumes goes round again. */
  lemma StarLoopStep(env: Env, q: Parser, cur: seq<char>, acc: seq<char>, ev: seq<Event>, fuel: nat)
    ensures var t := Run(env, q, cur, fuel);
      (t.out.NoMatch? ==> StarLoop(env, q, cur, acc, ev, fuel) == Result(Match(Chars(acc)), t.rest, ev + t.events)) &&
      (t.out.Match? && |t.rest| < |cur| ==>
         StarLoop(env, q, cur, acc, ev, fuel) == StarLoop(env, q, t.rest, acc + CharOf(t.out.v), ev + t.events, fuel)) &&
      (t.out.Match? && |t.rest| == |cur| ==> StarLoop(env, q, cur, acc, ev, fuel).out == Fault(Diverges))
  {
  }

  lemma {:induction false} StarLoopClass(env: Env, k: CharClass, cur: seq<char>, acc: seq<char>,
                                         ev: seq<Event>, fuel: nat)
    ensures StarLoop(env, Plain(Class(k)), cur, acc, ev, fuel) ==
            Result(Match(Chars(acc + cur[..ClassRun(k, cur)])), cur[ClassRun(k, cur)..], ev)
    decreases |cur|
  {
    var n := ClassRun(k, cur);
    StarLoopClassStep(env, k, cur, acc, ev, fuel);
    if |cur| > 0 && InClass(k, cur[0]) {
      StarLoopClass(env, k, cur[1..], acc + [cur[0]], ev, fuel);
      assert acc + [cur[0]] + cur[1..][..n - 1] == acc + cur[..n];
      assert cur[1..][n - 1..] == cur[n..];
    } else {
      assert acc + cur[..0] == acc;
    }
  }

  /** One turn of the `*` loop over a class parser. */
  lemma StarLoopClassStep(env: Env, k: CharClass, cur: seq<char>, acc: seq<char>, ev: seq<Event>, fuel: nat)
    ensures |cur| > 0 && InClass(k, cur[0]) ==>
      StarLoop(env, Plain(Class(k)), cur, acc, ev, fuel) == StarLoop(env, Plain(Class(k)), cur[1..], acc + [cur[0]], ev, fuel)
    ensures !(|cur| > 0 && InClass(k, cur[0])) ==>
      StarLoop(env, Plain(Class(k)), cur, acc, ev, fuel) == Result(Match(Chars(acc)), cur, ev)
  {
    PlainRun(env, Class(k), cur, fuel);
    assert ev + [] == ev;
  }

  /** The collecting `*` over a class parser returns the longest prefix in
      the class, in order, and consumes exactly it. */
  lemma StarClass(env: Env, k: CharClass, s: seq<char>, fuel: nat)
    requires |s| > 0
    ensures var n := ClassRun(k, s);
      Run(env, Many(Plain(Class(k))), s, fuel) == Result(Match(Chars(s[..n])), s[n..], [])
  {
    PlainRun(env, Star(Plain(Class(k))), s, fuel);
    assert Step(env, Star(Plain(Class(k))), s, fuel) == RunStar(env, Plain(Class(k)), s, fuel);
    StarLoopClass(env, k, s, [], [], fuel);
    assert [] + s[..ClassRun(k, s)] == s[..ClassRun(k, s)];
  }

  /** `+p` (Parser.hpp:607-669): no match on an empty view; a first attempt
      that does not match is no match, keeping what it consumed; a first
      attempt that matches and consumes makes it behave as `*p`. */
  lemma PlusLaw(env: Env, q: Parser, s: seq<char>, fuel: nat)
    ensures var r := Run(env, Many1(q), s, fuel);
      var t := Run(env, q, s, fuel);
      (|s| == 0 ==> r == Result(NoMatch, s, [])) &&
      (|s| > 0 && t.out.NoMatch? ==> r == Result(NoMatch, t.rest, t.events)) &&
      (|s| > 0 && t.out.Match? && |t.rest| < |s| ==> r == Run(env, Many(q), s, fuel))
  {
    PlainRun(env, Plus(q), s, fuel);
    assert Step(env, Plus(q), s, fuel) == RunPlus(env, q, s, fuel);
    StarIs(env, q, s, fuel);
    if |s| > 0 {
      var t := Run(env, q, s, fuel);
      if t.out.Match? && |t.rest| < |s| {
        StarLoopStep(env, q, s, [], [], fuel);
        assert [] + CharOf(t.out.v) == CharOf(t.out.v);
        assert [] + t.events == t.events;
      }
    }
  }

  // ---------------------------------------------------------------- until

  lemma {:induction false} ScanChar(env: Env, c: char, cur: seq<char>, acc: seq<char>, ev: seq<Event>,
                                    fuel: nat)
    requires |cur| == 0 || cur[0] != c
    ensures var i := IndexOf(c, cur);
      ScanLoop(env, ChP(c), NoMatch, cur, acc, ev, fuel) ==
      Result(Match(Text(acc + cur[..i])), if i < |cur| then cur[i + 1..] else [], ev)
    decreases |cur|
  {
    if |cur| > 0 {
      var i := IndexOf(c, cur);
      ScanCharStep(env, c, cur, acc, ev, fuel);
      TextShift(c, cur, acc);
      if !(|cur| > 1 && cur[1] == c) {
        ScanChar(env, c, cur[1..], acc + [cur[0]], ev, fuel);
      }
    }
  }

  /** How the text before the first `c` grows by one char per turn. */
  lemma TextShift(c: char, cur: seq<char>, acc: seq<char>)
    requires |cur| > 0 && cur[0] != c
    ensures var i := IndexOf(c, cur);
      i == 1 + IndexOf(c, cur[1..]) &&
      acc + [cur[0]] + cur[1..][..i - 1] == acc + cur[..i] &&
      (i < |cur| ==> cur[1..][i - 1 + 1..] == cur[i + 1..]) &&
      (|cur| > 1 && cur[1] == c ==> i == 1 && acc + [cur[0]] == acc + cur[..1] && cur[2..] == cur[i + 1..])
  {
    var i := IndexOf(c, cur);
    assert cur[..i] == [cur[0]] + cur[1..][..i - 1];
  }

  /** One turn of the scan for `c`: the next char is moved into the text,
      and the scan stops when a `c` follows it. */
  lemma ScanCharStep(env: Env, c: char, cur: seq<char>, acc: seq<char>, ev: seq<Event>, fuel: nat)
    requires |cur| > 0
    ensures |cur| > 1 && cur[1] == c ==>
      ScanLoop(env, ChP(c), NoMatch, cur, acc, ev, fuel) == Result(Match(Text(acc + [cur[0]])), cur[2..], ev)
    ensures !(|cur| > 1 && cur[1] == c) ==>
      ScanLoop(env, ChP(c), NoMatch, cur, acc, ev, fuel) ==
      ScanLoop(env, ChP(c), NoMatch, cur[1..], acc + [cur[0]], ev, fuel)
  {
    CharLaw(env, c, cur[1..], fuel);
    assert ev + [] == ev;
    if |cur| > 1 && cur[1] == c {
      assert cur[1..][1..] == cur[2..];
    }
  }

  /** `~p` (Parser.hpp:671-698): no match on an empty view; when `p`
      matches at once, no match, but with `p`'s consumption kept. */
  lemma UntilLaw(env: Env, q: Parser, s: seq<char>, fuel: nat)
    ensures var r := Run(env, UpTo(q), s, fuel);
      var t := Run(env, q, s, fuel);
      (|s| == 0 ==> r == Result(NoMatch, s, [])) &&
      (|s| > 0 && t.out.Match? ==> r == Result(NoMatch, t.rest, t.events))
  {
    PlainRun(env, Until(q), s, fuel);
    assert Step(env, Until(q), s, fuel) == RunUntil(env, q, s, fuel);
    var t := Run(env, q, s, fuel);
    if |s| > 0 && t.out.Match? {
      assert ScanLoop(env, q, t.out, t.rest, [], t.events, fuel) == Result(Match(Text([])), t.rest, t.events);
    }
  }

  /** `~ch_p(c)`: the text before the first `c`, consuming that `c` as
      well; a leading `c` is consumed and reported as no match. */
  lemma UntilChar(env: Env, c: char, s: seq<char>, fuel: nat)
    ensures var r := Run(env, UpTo(ChP(c)), s, fuel);
      var i := IndexOf(c, s);
      (|s| == 0 ==> r == Result(NoMatch, s, [])) &&
      (|s| > 0 && s[0] == c ==> r == Result(NoMatch, s[1..], [])) &&
      (|s| > 0 && s[0] != c ==> r == Result(Match(Text(s[..i])), if i < |s| then s[i + 1..] else [], []))
  {
    PlainRun(env, Until(ChP(c)), s, fuel);
    assert Step(env, Until(ChP(c)), s, fuel) == RunUntil(env, ChP(c), s, fuel);
    CharLaw(env, c, s, fuel);
    if |s| > 0 && s[0] != c {
      ScanChar(env, c, s, [], [], fuel);
      assert IndexOf(c, s) > 0;
      assert [] + s[..IndexOf(c, s)] == s[..IndexOf(c, s)];
    } else if |s| > 0 {
      assert ScanLoop(env, ChP(c), Match(Chr(c)), s[1..], [], [], fuel) == Result(Match(Text([])), s[1..], []);
    }
  }

  // ----------------------------------------------------------- exclusion

  /** `a - b` (Parser.hpp:700-817) works on a copy: on failure the view is
      unchanged, and an empty view always fails. */
  lemma ExcludeLaw(env: Env, a: Parser, b: Parser, s: seq<char>, fuel: nat)
    ensures var r := Run(env, Minus(a, b), s, fuel);
      (!r.out.Match? ==> r.rest == s) && (|s| == 0 ==> !r.out.Match?)
  {
    PlainRun(env, Exclude(a, b), s, fuel);
    assert Step(env, Exclude(a, b), s, fuel) == RunExclude(env, a, b, s, fuel);
  }

  /** `a - ch_p(c)`: `a` runs on the text before the first `c` alone; the
      exclusion matches when that text is not empty and `a` matches on it,
      and then consumes exactly what `a` consumed, so neither the `c` nor
      anything after it. */
  lemma ExcludeChar(env: Env, a: Parser, c: char, s: seq<char>, fuel: nat)
    ensures var r := Run(env, Minus(a, ChP(c)), s, fuel);
      var i := IndexOf(c, s);
      var ra := Run(env, a, s[..i], fuel);
      (r.out.Match? <==> i > 0 && ra.out.Match?) &&
      (r.out.Fault? <==> i > 0 && ra.out.Fault?) &&
      (!r.out.Match? ==> r.rest == s) &&
      (r.out.Match? ==> |ra.rest| <= i && ra.rest == s[i - |ra.rest|..i] && r.rest == ra.rest + s[i..]) &&
      r.events == (if i > 0 then ra.events else [])
  {
    var i := IndexOf(c, s);
    var ra := Run(env, a, s[..i], fuel);
    assert Run(env, Minus(a, ChP(c)), s, fuel) ==
           if i == 0 then Result(NoMatch, s, [])
           else if ra.out.Match? then Result(Match(Flag), s[i - |ra.rest|..], ra.events)
           else Result(ra.out, s, ra.events) by {
      PlainRun(env, Exclude(a, ChP(c)), s, fuel);
      ExcludeScan(env, a, c, s, fuel);
    }
    if i > 0 && ra.out.Match? {
      RunSuffix(env, a, s[..i], fuel);
      PrefixRest(s, i, ra.rest);
    }
  }

  /** What is left of the first `i` chars of `s`, and of `s` itself, once a
      parser consumed part of `s[..i]`. */
  lemma PrefixRest(s: seq<char>, i: nat, u: seq<char>)
    requires i <= |s| && IsSuffix(u, s[..i])
    ensures |u| <= i && u == s[i - |u|..i] && s[i - |u|..] == u + s[i..]
  {
    SuffixSlice(u, s[..i]);
    assert s[..i][i - |u|..] == s[i - |u|..i];
    assert s[i - |u|..] == s[i - |u|..i] + s[i..];
  }

  /** The scan of `a - ch_p(c)` yields the text before the first `c`. */
  lemma ExcludeScan(env: Env, a: Parser, c: char, s: seq<char>, fuel: nat)
    ensures var i := IndexOf(c, s);
      var ra := Run(env, a, s[..i], fuel);
      Step(env, Exclude(a, ChP(c)), s, fuel) ==
      if i == 0 then Result(NoMatch, s, [])
      else if ra.out.Match? then Result(Match(Flag), s[i - |ra.rest|..], ra.events)
      else Result(ra.out, s, ra.events)
  {
    assert Step(env, Exclude(a, ChP(c)), s, fuel) == RunExclude(env, a, ChP(c), s, fuel);
    ExcludeCharScan(env, c, s, fuel);
    var i := IndexOf(c, s);
    if i > 0 {
      var ra := Run(env, a, s[..i], fuel);
      assert [] + ra.events == ra.events;
    }
  }

  /** The scanning loop of `- ch_p(c)` stops at the first `c`, with no
      events. */
  lemma ExcludeCharScan(env: Env, c: char, s: seq<char>, fuel: nat)
    ensures var t := Run(env, ChP(c), s, fuel);
      var l := ScanLoop(env, ChP(c), t.out, t.rest, [], t.events, fuel);
      l.out == Match(Text(s[..IndexOf(c, s)])) && l.events == []
  {
    CharLaw(env, c, s, fuel);
    if |s| > 0 && s[0] != c {
      ScanChar(env, c, s, [], [], fuel);
      assert [] + s[..IndexOf(c, s)] == s[..IndexOf(c, s)];
    } else if |s| > 0 {
      assert ScanLoop(env, ChP(c), Match(Chr(c)), s[1..], [], [], fuel) == Result(Match(Text([])), s[1..], []);
    }
  }

  // ------------------------------------------------------------------ pair

  /** Two-argument `pair(open, close)` (Parser.hpp:971-1014) works on a
      copy: on an empty view no match; on failure the view is unchanged;
      on success `open` matched at the front and the value is exactly the
      consumed span. */
  lemma SpanLaw(env: Env, o: Parser, c: Parser, s: seq<char>, fuel: nat)
    ensures var r := Run(env, Pair(o, c), s, fuel);
      (|s| == 0 ==> r == Result(NoMatch, s, [])) &&
      (!r.out.Match? ==> r.rest == s) &&
      (r.out.Match? ==> Run(env, o, s, fuel).out.Match? && s == r.out.v.chars + r.rest)
  {
    PlainRun(env, Span(o, c), s, fuel);
    assert Step(env, Span(o, c), s, fuel) == RunSpan(env, o, c, s, fuel);
    var r := Run(env, Pair(o, c), s, fuel);
    if r.out.Match? {
      SpanSuffix(env, o, c, s, fuel);
      SuffixSlice(r.rest, s);
      assert s == s[..|s| - |r.rest|] + s[|s| - |r.rest|..];
    }
  }

  lemma ShiftCloses(p: char, q: char, t: seq<char>, d: nat, d': nat, n: nat)
    requires |t| > 0 && d > 0 && d' == d + Delta(p, q, t[0])
    requires Closes(p, q, t[1..], d', n)
    ensures Closes(p, q, t, d, n + 1)
  {
    DepthCons(p, q, t, n);
    forall j | 0 <= j < n + 1
      ensures d + Depth(p, q, t[..j]) > 0
    {
      if j > 0 {
        DepthCons(p, q, t, j - 1);
      }
    }
  }

  lemma ShiftNever(p: char, q: char, t: seq<char>, d: nat, d': nat)
    requires |t| > 0 && d > 0 && d' == d + Delta(p, q, t[0])
    requires NeverCloses(p, q, t[1..], d')
    ensures NeverCloses(p, q, t, d)
  {
    forall j | 0 <= j <= |t|
      ensures d + Depth(p, q, t[..j]) > 0
    {
      if j > 0 {
        DepthCons(p, q, t, j - 1);
      }
    }
  }

  /** What the depth scan with `ch_p(p)` and `ch_p(q)` from `depth` on
      `cur` ends in: no events and no fault; a match right after the first
      closer that brings the depth to 0, a `q`; no match when there is
      none. */
  predicate Scanned(p: char, q: char, cur: seq<char>, depth: nat, r: Balance, ev: seq<Event>)
  {
    r.events == ev && !r.out.Fault? && |r.rest| <= |cur| &&
    (r.out.Match? ==> r.closeLen == 1 && Closes(p, q, cur, depth, |cur| - |r.rest|) &&
                      r.rest == cur[|cur| - |r.rest|..]) &&
    (!r.out.Match? ==> r.out == NoMatch && NeverCloses(p, q, cur, depth))
  }

  lemma NeverClosesEmpty(p: char, q: char, cur: seq<char>, d: nat, closeLen: nat, ev: seq<Event>)
    requires |cur| == 0 && d > 0
    ensures Scanned(p, q, cur, d, Balance(NoMatch, cur, closeLen, ev), ev)
  {
    assert cur[..0] == [];
  }

  lemma ClosesAtOnce(p: char, q: char, cur: seq<char>, d: nat, ev: seq<Event>)
    requires |cur| > 0 && d > 0 && d + Delta(p, q, cur[0]) == 0
    ensures Scanned(p, q, cur, d, Balance(Match(Flag), cur[1..], 1, ev), ev)
  {
    assert cur[..0] == [];
    DepthCons(p, q, cur, 0);
    assert cur[1..] == cur[|cur| - |cur[1..]|..];
  }

  lemma ShiftBalance(p: char, q: char, cur: seq<char>, d: nat, d': nat, r: Balance, ev: seq<Event>)
    requires |cur| > 0 && d > 0 && d' == d + Delta(p, q, cur[0])
    requires Scanned(p, q, cur[1..], d', r, ev)
    ensures Scanned(p, q, cur, d, r, ev)
  {
    if r.out.Match? {
      ShiftCloses(p, q, cur, d, d', |cur[1..]| - |r.rest|);
      assert cur[1..][|cur[1..]| - |r.rest|..] == cur[|cur| - |r.rest|..];
    } else {
      ShiftNever(p, q, cur, d, d');
    }
  }

  /** The depth scan with `ch_p(p)` and `ch_p(q)`: it stops, matching, at
      the first point where the depth reaches 0, right after a `q`; when
      there is none it is no match.  It never faults. */
  lemma {:induction false} BalanceChars(env: Env, p: char, q: char, cur: seq<char>, depth: nat, closeLen: nat,
                                        ev: seq<Event>, fuel: nat)
    requires depth > 0
    ensures Scanned(p, q, cur, depth, BalanceLoop(env, ChP(p), ChP(q), cur, depth, closeLen, ev, fuel), ev)
    decreases |cur|
  {
    BalanceCharsStep(env, p, q, cur, depth, closeLen, ev, fuel);
    if |cur| == 0 {
      NeverClosesEmpty(p, q, cur, depth, closeLen, ev);
    } else {
      var d' := depth + Delta(p, q, cur[0]);
      var len := if cur[0] == q then 1 else closeLen;
      if d' == 0 {
        ClosesAtOnce(p, q, cur, depth, ev);
      } else {
        BalanceChars(env, p, q, cur[1..], d', len, ev, fuel);
        ShiftBalance(p, q, cur, depth, d', BalanceLoop(env, ChP(p), ChP(q), cur[1..], d', len, ev, fuel), ev);
      }
    }
  }

  /** One turn of the depth scan with `ch_p(p)` and `ch_p(q)`: a `q`
      closes (and is the last closer), a `p` opens, any other char is
      skipped. */
  lemma BalanceCharsStep(env: Env, p: char, q: char, cur: seq<char>, depth: nat, closeLen: nat,
                         ev: seq<Event>, fuel: nat)
    requires depth > 0
    ensures |cur| == 0 ==> BalanceLoop(env, ChP(p), ChP(q), cur, depth, closeLen, ev, fuel) ==
                           Balance(NoMatch, cur, closeLen, ev)
    ensures |cur| > 0 && depth + Delta(p, q, cur[0]) == 0 ==>
      BalanceLoop(env, ChP(p), ChP(q), cur, depth, closeLen, ev, fuel) == Balance(Match(Flag), cur[1..], 1, ev)
    ensures |cur| > 0 && depth + Delta(p, q, cur[0]) > 0 ==>
      BalanceLoop(env, ChP(p), ChP(q), cur, depth, closeLen, ev, fuel) ==
      BalanceLoop(env, ChP(p), ChP(q), cur[1..], depth + Delta(p, q, cur[0]), if cur[0] == q then 1 else closeLen, ev, fuel)
  {
    if |cur| > 0 {
      if cur[0] == q {
        BalanceClose(env, p, q, cur, depth, closeLen, ev, fuel);
        if depth == 1 {
          assert BalanceLoop(env, ChP(p), ChP(q), cur[1..], 0, 1, ev, fuel) == Balance(Match(Flag), cur[1..], 1, ev);
        }
      } else {
        BalanceSkip(env, p, q, cur, depth, closeLen, ev, fuel);
      }
    }
  }

  lemma BalanceClose(env: Env, p: char, q: char, cur: seq<char>, depth: nat, closeLen: nat,
                     ev: seq<Event>, fuel: nat)
    requires depth > 0 && |cur| > 0 && cur[0] == q
    ensures BalanceLoop(env, ChP(p), ChP(q), cur, depth, closeLen, ev, fuel) ==
            BalanceLoop(env, ChP(p), ChP(q), cur[1..], depth - 1, 1, ev, fuel)
  {
    CharLaw(env, q, cur, fuel);
    assert ev + [] == ev;
  }

  lemma BalanceSkip(env: Env, p: char, q: char, cur: seq<char>, depth: nat, closeLen: nat,
                    ev: seq<Event>, fuel: nat)
    requires depth > 0 && |cur| > 0 && cur[0] != q
    ensures BalanceLoop(env, ChP(p), ChP(q), cur, depth, closeLen, ev, fuel) ==
            BalanceLoop(env, ChP(p), ChP(q), cur[1..], if cur[0] == p then depth + 1 else depth, closeLen, ev, fuel)
  {
    CharLaw(env, q, cur, fuel);
    CharLaw(env, p, cur, fuel);
    assert ev + [] + [] == ev;
  }

  /** `pair(ch_p(p), ch_p(q))`: it matches exactly when the view starts with
      `p` and the depth, counting `q` before `p`, reaches 0 somewhere after
      it; the value is the span up to the first such point, and nothing
      else is consumed. */
  lemma SpanChars(env: Env, p: char, q: char, s: seq<char>, fuel: nat)
    ensures var r := Run(env, Pair(ChP(p), ChP(q)), s, fuel);
      r.events == [] && !r.out.Fault? &&
      (!r.out.Match? ==> r.rest == s) &&
      (r.out.Match? ==> |s| > 0 && s[0] == p && s == r.out.v.chars + r.rest &&
                        |r.out.v.chars| > 0 && Closes(p, q, s[1..], 1, |r.out.v.chars| - 1)) &&
      (|s| > 0 && s[0] == p && !r.out.Match? ==> NeverCloses(p, q, s[1..], 1))
  {
    SpanShape(env, p, q, s, fuel);
    if |s| > 0 && s[0] == p {
      BalanceChars(env, p, q, s[1..], 1, 0, [], fuel);
      var l := BalanceLoop(env, ChP(p), ChP(q), s[1..], 1, 0, [], fuel);
      if l.out.Match? {
        SpanSplit(s, l.rest);
      }
    }
  }

  /** Splitting a view at a suffix of its tail, left after the first char. */
  lemma SpanSplit(s: seq<char>, u: seq<char>)
    requires |s| > 0 && |u| <= |s[1..]| && u == s[1..][|s[1..]| - |u|..]
    ensures var span := s[..|s| - |u|];
      s == span + u && |span| > 0 && |span| - 1 == |s[1..]| - |u|
  {
    assert s[1..][|s[1..]| - |u|..] == s[|s| - |u|..];
  }

  /** Three-argument `pair(open, exp, close)` (Parser.hpp:1016-1107) works
      on a copy: on an empty view no match; on failure the view is
      unchanged; on success the two-argument `pair` of `open` and `close`
      matches too and leaves the same view. */
  lemma NestedLaw(env: Env, o: Parser, e: Parser, c: Parser, s: seq<char>, fuel: nat)
    ensures var r := Run(env, PairWith(o, e, c), s, fuel);
      (|s| == 0 ==> r == Result(NoMatch, s, [])) &&
      (!r.out.Match? ==> r.rest == s) &&
      (r.out.Match? ==> Run(env, Pair(o, c), s, fuel).out.Match? && Run(env, Pair(o, c), s, fuel).rest == r.rest)
  {
    PlainRun(env, Span(o, c), s, fuel);
    assert Step(env, Span(o, c), s, fuel) == RunSpan(env, o, c, s, fuel);
    PlainRun(env, Nested(o, e, c), s, fuel);
    assert Step(env, Nested(o, e, c), s, fuel) == RunNested(env, o, e, c, s, fuel);
    if |s| > 0 {
      var ro := Run(env, o, s, fuel);
      if ro.out.Match? {
        assert RunNested(env, o, e, c, s, fuel) == NestedAfterOpener(env, o, e, c, s, ro, fuel);
      }
    }
  }

  /** `pair(ch_p(p), exp, ch_p(q))`: the balanced span is the one
      `pair(ch_p(p), ch_p(q))` finds; `exp` runs on its interior, the span
      without its first and last char, and the whole matches, consuming the
      span, exactly when `exp` leaves nothing of the interior. */
  lemma NestedChars(env: Env, p: char, e: Parser, q: char, s: seq<char>, fuel: nat)
    ensures var r := Run(env, PairWith(ChP(p), e, ChP(q)), s, fuel);
      var sp := Run(env, Pair(ChP(p), ChP(q)), s, fuel);
      (!sp.out.Match? ==> r == Result(NoMatch, s, [])) &&
      (sp.out.Match? ==> |sp.out.v.chars| >= 2) &&
      (sp.out.Match? && |sp.out.v.chars| >= 2 ==>
        var span := sp.out.v.chars;
        var re := Run(env, e, span[1..|span| - 1], fuel);
        r.events == re.events &&
        (r.out.Match? <==> !re.out.Fault? && re.rest == []) &&
        (r.out.Fault? <==> re.out.Fault?) &&
        (r.out.Match? ==> r.rest == sp.rest) &&
        (!r.out.Match? ==> r.rest == s))
  {
    if |s| > 0 && s[0] == p {
      BalanceChars(env, p, q, s[1..], 1, 0, [], fuel);
      var l := BalanceLoop(env, ChP(p), ChP(q), s[1..], 1, 0, [], fuel);
      SpanShape(env, p, q, s, fuel);
      NestedShape(env, p, e, q, s, fuel);
      AfterOpenerChars(env, p, e, q, s, fuel);
    } else {
      SpanShape(env, p, q, s, fuel);
      NestedShape(env, p, e, q, s, fuel);
    }
  }

  /** After the opener `p` of `pair(ch_p(p), exp, ch_p(q))`: the depth scan
      either fails, and so does the whole, or finds the span, and `exp`
      runs on the span without its first and last char. */
  lemma AfterOpenerChars(env: Env, p: char, e: Parser, q: char, s: seq<char>, fuel: nat)
    requires |s| > 0 && s[0] == p
    ensures var l := BalanceLoop(env, ChP(p), ChP(q), s[1..], 1, 0, [], fuel);
      var r := NestedAfterOpener(env, ChP(p), e, ChP(q), s, Result(Match(Chr(p)), s[1..], []), fuel);
      (!l.out.Match? ==> r == Result(l.out, s, l.events)) &&
      (l.out.Match? ==>
         |l.rest| < |s| &&
         var span := s[..|s| - |l.rest|];
         |span| >= 2 && r == NestedEnd(s, l, Run(env, e, span[1..|span| - 1], fuel)))
  {
    var l := BalanceLoop(env, ChP(p), ChP(q), s[1..], 1, 0, [], fuel);
    assert NestedAfterOpener(env, ChP(p), e, ChP(q), s, Result(Match(Chr(p)), s[1..], []), fuel) ==
      if !l.out.Match? then Result(l.out, s, l.events)
      else NestedEnd(s, l, Run(env, e, s[1..][..|s[1..]| - |l.rest| - l.closeLen], fuel));
    if l.out.Match? {
      BalanceChars(env, p, q, s[1..], 1, 0, [], fuel);
      InteriorSlice(s, l.rest);
    }
  }

  /** The interior of the span that ends where `u` begins: the span without
      its first and last char. */
  lemma InteriorSlice(s: seq<char>, u: seq<char>)
    requires |s| > 0 && |u| + 1 <= |s[1..]|
    ensures var span := s[..|s| - |u|];
      |span| >= 2 && s[1..][..|s[1..]| - |u| - 1] == span[1..|span| - 1]
  {
    var span := s[..|s| - |u|];
    assert forall j :: 0 <= j < |s| - |u| - 2 ==> s[1..][j] == span[1..|span| - 1][j];
  }

  /** `pair(ch_p(p), ch_p(q))` unfolded: the opener char, then the depth
      scan from depth 1. */
  lemma SpanShape(env: Env, p: char, q: char, s: seq<char>, fuel: nat)
    ensures !(|s| > 0 && s[0] == p) ==> Run(env, Pair(ChP(p), ChP(q)), s, fuel) == Result(NoMatch, s, [])
    ensures |s| > 0 && s[0] == p ==>
      var l := BalanceLoop(env, ChP(p), ChP(q), s[1..], 1, 0, [], fuel);
      Run(env, Pair(ChP(p), ChP(q)), s, fuel) ==
      if l.out.Match? then Result(Match(Chars(s[..|s| - |l.rest|])), l.rest, l.events)
      else Result(l.out, s, l.events)
  {
    PlainRun(env, Span(ChP(p), ChP(q)), s, fuel);
    assert Step(env, Span(ChP(p), ChP(q)), s, fuel) == RunSpan(env, ChP(p), ChP(q), s, fuel);
    CharLaw(env, p, s, fuel);
  }

  /** `pair(ch_p(p), exp, ch_p(q))` unfolded: the opener char, the depth
      scan from depth 1, then `exp` on the interior. */
  lemma NestedShape(env: Env, p: char, e: Parser, q: char, s: seq<char>, fuel: nat)
    ensures !(|s| > 0 && s[0] == p) ==> Run(env, PairWith(ChP(p), e, ChP(q)), s, fuel) == Result(NoMatch, s, [])
    ensures |s| > 0 && s[0] == p ==>
      Run(env, PairWith(ChP(p), e, ChP(q)), s, fuel) ==
      NestedAfterOpener(env, ChP(p), e, ChP(q), s, Result(Match(Chr(p)), s[1..], []), fuel)
  {
    PlainRun(env, Nested(ChP(p), e, ChP(q)), s, fuel);
    assert Step(env, Nested(ChP(p), e, ChP(q)), s, fuel) == RunNested(env, ChP(p), e, ChP(q), s, fuel);
    CharLaw(env, p, s, fuel);
  }

  /** An empty interior matches whatever `exp` is, as long as `exp` itself
      gives an answer on the empty view. */
  lemma NestedEmptyInterior(env: Env, p: char, e: Parser, q: char, t: seq<char>, fuel: nat)
    requires !Run(env, e, [], fuel).out.Fault?
    ensures Run(env, PairWith(ChP(p), e, ChP(q)), [p, q] + t, fuel) ==
            Result(Match(Flag), t, Run(env, e, [], fuel).events)
  {
    var s := [p, q] + t;
    assert s[1..] == [q] + t;
    assert ([q] + t)[1..] == t;
    NestedShape(env, p, e, q, s, fuel);
    BalanceCharsStep(env, p, q, [q] + t, 1, 0, [], fuel);
    AfterOpenerChars(env, p, e, q, s, fuel);
    assert s[..|s| - |t|] == [p, q];
    var re := Run(env, e, [], fuel);
    assert [] + re.events == re.events;
  }

  // -------------------------------------------------------------- repeat

  lemma {:induction false} RepeatLoopClass(env: Env, k: CharClass, left: nat, cur: seq<char>, all: bool,
                                           acc: seq<char>, ev: seq<Event>, fuel: nat)
    ensures RepeatLoop(env, Plain(Class(k)), left, cur, all, acc, ev, fuel) == ClassTaken(k, left, cur, all, acc, ev)
    decreases left
  {
    RepeatLoopClassStep(env, k, left, cur, all, acc, ev, fuel);
    ClassTakenStep(k, left, cur, all, acc, ev);
    if left > 0 {
      var took := |cur| > 0 && InClass(k, cur[0]);
      var cur' := if took then cur[1..] else cur;
      RepeatLoopClass(env, k, left - 1, cur', all && took, if took then acc + [cur[0]] else acc, ev, fuel);
    }
  }

  /** What `left` more attempts of a class parser leave: the leading class
      chars, up to `left` of them, are taken; the whole matches only when
      it got all `left`. */
  function ClassTaken(k: CharClass, left: nat, cur: seq<char>, all: bool, acc: seq<char>, ev: seq<Event>): Result
  {
    var m := if left < ClassRun(k, cur) then left else ClassRun(k, cur);
    Result(if all && m == left then Match(Chars(acc + cur[..m])) else NoMatch, cur[m..], ev)
  }

  lemma ClassTakenStep(k: CharClass, left: nat, cur: seq<char>, all: bool, acc: seq<char>, ev: seq<Event>)
    ensures left == 0 ==> ClassTaken(k, left, cur, all, acc, ev) ==
                          Result(if all then Match(Chars(acc)) else NoMatch, cur, ev)
    ensures left > 0 && |cur| > 0 && InClass(k, cur[0]) ==>
      ClassTaken(k, left, cur, all, acc, ev) == ClassTaken(k, left - 1, cur[1..], all, acc + [cur[0]], ev)
    ensures left > 0 && !(|cur| > 0 && InClass(k, cur[0])) ==>
      ClassTaken(k, left, cur, all, acc, ev) == ClassTaken(k, left - 1, cur, false, acc, ev)
  {
    if left == 0 {
      assert acc + cur[..0] == acc;
    } else if |cur| > 0 && InClass(k, cur[0]) {
      ClassTakenTake(k, left, cur, all, acc, ev);
    } else {
      assert ClassRun(k, cur) == 0;
    }
  }

  lemma ClassTakenTake(k: CharClass, left: nat, cur: seq<char>, all: bool, acc: seq<char>, ev: seq<Event>)
    requires left > 0 && |cur| > 0 && InClass(k, cur[0])
    ensures ClassTaken(k, left, cur, all, acc, ev) == ClassTaken(k, left - 1, cur[1..], all, acc + [cur[0]], ev)
  {
    var n' := ClassRun(k, cur[1..]);
    assert ClassRun(k, cur) == 1 + n';
    var m' := if left - 1 < n' then left - 1 else n';
    TakeShift(cur, acc, m');
  }

  /** One attempt of `repeat` over a class parser: a class char is taken
      into the value, anything else spoils the match and is left in place. */
  lemma RepeatLoopClassStep(env: Env, k: CharClass, left: nat, cur: seq<char>, all: bool,
                            acc: seq<char>, ev: seq<Event>, fuel: nat)
    ensures left == 0 ==> RepeatLoop(env, Plain(Class(k)), left, cur, all, acc, ev, fuel) ==
                          Result(if all then Match(Chars(acc)) else NoMatch, cur, ev)
    ensures left > 0 && |cur| > 0 && InClass(k, cur[0]) ==>
      RepeatLoop(env, Plain(Class(k)), left, cur, all, acc, ev, fuel) ==
      RepeatLoop(env, Plain(Class(k)), left - 1, cur[1..], all, acc + [cur[0]], ev, fuel)
    ensures left > 0 && !(|cur| > 0 && InClass(k, cur[0])) ==>
      RepeatLoop(env, Plain(Class(k)), left, cur, all, acc, ev, fuel) ==
      RepeatLoop(env, Plain(Class(k)), left - 1, cur, false, acc, ev, fuel)
  {
    PlainRun(env, Class(k), cur, fuel);
    assert ev + [] == ev;
  }

  lemma TakeShift(cur: seq<char>, acc: seq<char>, m: nat)
    requires 0 < |cur| && m <= |cur| - 1
    ensures acc + [cur[0]] + cur[1..][..m] == acc + cur[..m + 1]
    ensures cur[1..][m..] == cur[m + 1..]
  {
    assert cur[..m + 1] == [cur[0]] + cur[1..][..m];
  }

  /** `repeat(n, p)` (Parser.hpp:1109-1175) runs all `n` attempts on the
      caller's view and never rolls back: over a class parser it consumes
      as many leading class chars as it can, up to `n`, and matches only
      when it got `n` of them. */
  lemma RepeatClass(env: Env, n: nat, k: CharClass, s: seq<char>, fuel: nat)
    ensures var m := if n < ClassRun(k, s) then n else ClassRun(k, s);
      var r := Run(env, Times(n, Plain(Class(k))), s, fuel);
      (|s| == 0 ==> r == Result(NoMatch, s, [])) &&
      (|s| > 0 ==> r == Result(if m == n then Match(Chars(s[..n])) else NoMatch, s[m..], []))
  {
    PlainRun(env, Repeat(n, Plain(Class(k))), s, fuel);
    assert Step(env, Repeat(n, Plain(Class(k))), s, fuel) == RunRepeat(env, n, Plain(Class(k)), s, fuel);
    if |s| > 0 {
      RepeatLoopClass(env, k, n, s, true, [], [], fuel);
      if n <= |s| {
        assert [] + s[..n] == s[..n];
      }
    }
  }

  // ----------------------------------------------------------------- ref

  /** `ref(p)` with the overloads taking `Parser<T>*` (Parser.hpp:1178-1182,
      1188-1353): the rule is looked up when the composite runs, and only
      whether it matched is kept; an unbound name and exhausted fuel are
      faults that consume nothing. */
  lemma RefLaw(env: Env, name: string, s: seq<char>, fuel: nat)
    ensures var r := Run(env, Ref(name), s, fuel);
      (name !in env ==> r == Result(Fault(Undefined), s, [])) &&
      (name in env && fuel == 0 ==> r == Result(Fault(OutOfFuel), s, [])) &&
      (name in env && fuel > 0 ==>
         var t := Run(env, env[name], s, fuel - 1);
         r.rest == t.rest && r.events == t.events && (r.out.Match? <==> t.out.Match?) &&
         (!t.out.Match? ==> r.out == t.out) && (r.out.Match? ==> r.out.v == Flag))
  {
    PlainRun(env, Rule(name), s, fuel);
    assert Step(env, Rule(name), s, fuel) == RunRule(env, name, s, fuel);
  }

  // ------------------------------------------------------------- actions

  /** `operator()` with an attached action: the outcome and the view are
      those of the form, and the action fires exactly once after a match
      and never after a failure.  (On a `Parser<std::vector<char>>` that
      already has a string action a no-argument one is shadowed, below.) */
  lemma AttachFires(env: Env, p: Parser, a: Action, s: seq<char>, fuel: nat)
    requires !(KindOf(p.form) == KChars && a.Void? && p.call.Some?)
    ensures var r := Run(env, Attach(p, a), s, fuel);
      var m := Step(env, p.form, s, fuel);
      r.out == m.out && r.rest == m.rest &&
      (m.out.Match? ==> r.events == m.events + [Event(a.tag, if a.Void? && m.out.v.Chars? then NoArg else ArgOf(m.out.v))]) &&
      (!m.out.Match? ==> r.events == m.events)
  {
  }

  /** `operator[]` overwrites the slot, so the last action attached to a
      slot is the one that stays. */
  lemma LastAttachWins(p: Parser, a: Action, b: Action)
    requires KindOf(p.form) == KChars ==> a.Void? == b.Void?
    ensures Attach(Attach(p, a), b) == Attach(p, b)
  {
  }

  /** On a `Parser<std::vector<char>>` the string action takes precedence:
      once one is attached, a no-argument action never fires, whichever
      was attached first. */
  lemma StringActionFirst(env: Env, p: Parser, t: string, u: string, s: seq<char>, fuel: nat)
    requires KindOf(p.form) == KChars
    ensures Run(env, Attach(Attach(p, Typed(t)), Void(u)), s, fuel) == Run(env, Attach(p, Typed(t)), s, fuel)
    ensures Run(env, Attach(Attach(p, Void(u)), Typed(t)), s, fuel) == Run(env, Attach(p, Typed(t)), s, fuel)
  {
  }

  // ------------------------------------------------------- confix and list

  /** A sequence ending in `*q` fails whenever its first part leaves
      nothing, because `*` rejects an empty view. */
  lemma TrailingStar(env: Env, a: Parser, q: Parser, s: seq<char>, fuel: nat)
    ensures var ra := Run(env, a, s, fuel);
      ra.out.Match? && ra.rest == [] ==> Run(env, Then(a, Many(q)), s, fuel) == Result(NoMatch, s, ra.events)
  {
    ThenLaw(env, a, Many(q), s, fuel);
    StarLaw(env, q, [], fuel);
    var ra := Run(env, a, s, fuel);
    if ra.out.Match? && ra.rest == [] {
      assert ra.events + [] == ra.events;
    }
  }

  /** `list(value, sep)` (Parser.hpp:965-969) fails when `value` consumes
      the whole view. */
  lemma ListFailsOnFullValue(env: Env, value: Parser, sep: Parser, s: seq<char>, fuel: nat)
    requires Run(env, value, s, fuel).out.Match? && Run(env, value, s, fuel).rest == []
    ensures Run(env, ListP(value, sep), s, fuel) == Result(NoMatch, s, Run(env, value, s, fuel).events)
  {
    TrailingStar(env, value, Then(sep, value), s, fuel);
  }

  /** `confix_p(ch_p(l), exp, ch_p(r))` (Parser.hpp:959-963): it matches
      exactly when the view is `l`, then a non-empty text without `r` that
      `exp` consumes entirely, then `r`; it then consumes through that
      first `r`, and otherwise leaves the view unchanged. */
  lemma ConfixChar(env: Env, l: char, e: Parser, rc: char, s: seq<char>, fuel: nat)
    ensures var r := Run(env, ConfixP(ChP(l), e, ChP(rc)), s, fuel);
      var t := if |s| > 0 then s[1..] else [];
      var i := IndexOf(rc, t);
      var re := Run(env, e, t[..i], fuel);
      (r.out.Match? <==> |s| > 0 && s[0] == l && 0 < i < |t| && re.out.Match? && re.rest == []) &&
      (r.out.Fault? <==> |s| > 0 && s[0] == l && 0 < i && re.out.Fault?) &&
      (r.out.Match? ==> r.rest == t[i + 1..]) &&
      (!r.out.Match? ==> r.rest == s) &&
      r.events == (if |s| > 0 && s[0] == l && i > 0 then re.events else [])
  {
    var t := if |s| > 0 then s[1..] else [];
    var i := IndexOf(rc, t);
    var re := Run(env, e, t[..i], fuel);
    ConfixShape(env, l, e, rc, s, fuel);
    if |s| > 0 && s[0] == l {
      ExcludeChar(env, e, rc, t, fuel);
      var rx := Run(env, Minus(e, ChP(rc)), t, fuel);
      if rx.out.Match? {
        CharLaw(env, rc, rx.rest, fuel);
        CloserAfter(rc, t, i, re.rest);
      }
    }
  }

  /** What follows the part of the text before the first `r` that `exp`
      left: it starts with `r` exactly when `exp` left nothing and there is
      an `r`. */
  lemma CloserAfter(rc: char, t: seq<char>, i: nat, u: seq<char>)
    requires i == IndexOf(rc, t) && |u| <= i && u == t[i - |u|..i]
    ensures (|u + t[i..]| > 0 && (u + t[i..])[0] == rc) <==> u == [] && i < |t|
    ensures u == [] && i < |t| ==> (u + t[i..])[1..] == t[i + 1..]
  {
    if u != [] {
      assert (u + t[i..])[0] == t[i - |u|];
    }
  }

  /** `confix_p(ch_p(l), exp, ch_p(r))` unfolded: `l`, the exclusion, `r`. */
  lemma ConfixShape(env: Env, l: char, e: Parser, rc: char, s: seq<char>, fuel: nat)
    ensures !(|s| > 0 && s[0] == l) ==> Run(env, ConfixP(ChP(l), e, ChP(rc)), s, fuel) == Result(NoMatch, s, [])
    ensures |s| > 0 && s[0] == l ==>
      var rx := Run(env, Minus(e, ChP(rc)), s[1..], fuel);
      var rr := Run(env, ChP(rc), rx.rest, fuel);
      Run(env, ConfixP(ChP(l), e, ChP(rc)), s, fuel) ==
      if !rx.out.Match? then Result(rx.out, s, rx.events)
      else if rr.out.Match? then Result(Match(Flag), rr.rest, rx.events)
      else Result(NoMatch, s, rx.events)
  {
    var left := Then(ChP(l), Minus(e, ChP(rc)));
    ThenIs(env, left, ChP(rc), s, fuel);
    ThenIs(env, ChP(l), Minus(e, ChP(rc)), s, fuel);
    CharLaw(env, l, s, fuel);
    if |s| > 0 && s[0] == l {
      var rx := Run(env, Minus(e, ChP(rc)), s[1..], fuel);
      CharLaw(env, rc, rx.rest, fuel);
      assert [] + rx.events == rx.events;
      assert rx.events + [] == rx.events;
    }
  }

}
