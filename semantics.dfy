/**
 * The reference semantics of Parser.hpp: what one call of a parser's
 * `operator()` on a `std::string_view&` does.  `Run` yields the outcome,
 * the view as the call leaves it (kept on failure too, because several
 * combinators advance the caller's view directly and never roll it back)
 * and the actions fired, in order.
 *
 * Recursion through `ref` costs one unit of `fuel`; every other form is
 * structurally smaller or, inside a loop, works on a shorter view.  The
 * loops of the library are the tail-recursive helpers below, with the
 * loop state as parameters.
 */
module Semantics {
  import opened Parsers

  /** Why a call produced no answer: a loop over a parser that succeeded
      without consuming (the C++ loop then runs forever), the fuel bound on
      `ref` nesting, `std::stoi`/`std::stod` throwing on a lexeme without a
      digit, or undefined behaviour (an unbound reference, or
      `remove_prefix(1)` on an empty view). */
  datatype Reason = Diverges | OutOfFuel | BadNumber | Undefined

  datatype Outcome = Match(v: Value) | NoMatch | Fault(reason: Reason)

  datatype Result = Result(out: Outcome, rest: seq<char>, events: seq<Event>)

  /** State of the `pair` depth scan when it stops: the copy of the view,
      and how much the last successful `close` consumed (`right_length`). */
  datatype Balance = Balance(out: Outcome, rest: seq<char>, closeLen: nat, events: seq<Event>)

  /** The rules a `ref` may point to, by name. */
  type Env = map<string, Parser>

  /** `t` is what is left of the view `s` after a prefix was consumed. */
  predicate IsSuffix(t: seq<char>, s: seq<char>)
  {
    |t| <= |s| && Tail(s, |s| - |t|) == t
  }

  /** `s` after `k` calls of `remove_prefix(1)`. */
  function Tail(s: seq<char>, k: nat): seq<char>
    requires k <= |s|
  {
    if k == 0 then s else Tail(s[1..], k - 1)
  }

  lemma {:induction false} TailIsDrop(s: seq<char>, k: nat)
    requires k <= |s|
    ensures Tail(s, k) == s[k..]
    decreases k
  {
    if k > 0 {
      TailIsDrop(s[1..], k - 1);
      assert s[1..][k - 1..] == s[k..];
    }
  }

  lemma SuffixSlice(t: seq<char>, s: seq<char>)
    requires IsSuffix(t, s)
    ensures t == s[|s| - |t|..]
  {
    TailIsDrop(s, |s| - |t|);
  }

  lemma DropIsSuffix(s: seq<char>, k: nat)
    requires k <= |s|
    ensures IsSuffix(s[k..], s)
  {
    TailIsDrop(s, k);
  }

  lemma SuffixTrans(u: seq<char>, t: seq<char>, s: seq<char>)
    requires IsSuffix(u, t) && IsSuffix(t, s)
    ensures IsSuffix(u, s)
  {
    SuffixSlice(u, t);
    SuffixSlice(t, s);
    assert s[|s| - |t|..][|t| - |u|..] == s[|s| - |u|..];
    DropIsSuffix(s, |s| - |u|);
  }

  lemma SuffixDrop(t: seq<char>, s: seq<char>, k: nat)
    requires IsSuffix(t, s) && k <= |t|
    ensures IsSuffix(t[k..], s)
  {
    DropIsSuffix(t, k);
    SuffixTrans(t[k..], t, s);
  }

  // ---------------------------------------------------------------- numbers

  function SignLength(s: seq<char>): nat
  {
    if |s| > 0 && (s[0] == '+' || s[0] == '-') then 1 else 0
  }

  /** The length of the run of digits starting at `i`. */
  function DigitRun(s: seq<char>, i: nat): (n: nat)
    requires i <= |s|
    ensures i + n <= |s|
    ensures forall j :: i <= j < i + n ==> IsDigit(s[j])
    ensures i + n == |s| || !IsDigit(s[i + n])
    decreases |s| - i
  {
    if i < |s| && IsDigit(s[i]) then 1 + DigitRun(s, i + 1) else 0
  }

  /** The decimal value of a digit string, as `std::stoi` reads it. */
  function DigitsValue(ds: seq<char>): int
  {
    if ds == [] then 0 else 10 * DigitsValue(ds[..|ds| - 1]) + DigitOf(ds[|ds| - 1])
  }

  /** The value of a magnitude read after a sign. */
  function Signed(negative: bool, magnitude: int): int
  {
    if negative then -magnitude else magnitude
  }

  /** The lambda of `Parser<int>` (Parser.hpp:323-354): an optional sign,
      then the digit run.  Nothing collected is no match; a lone '-' is
      collected and makes `std::stoi` throw after the view was advanced. */
  function IntegerScan(s: seq<char>): (r: Result)
    ensures |r.rest| <= |s|
  {
    if |s| == 0 then Result(NoMatch, s, [])
    else
      var k := SignLength(s);
      var n := DigitRun(s, k);
      var negative := s[0] == '-';
      if !negative && n == 0 then Result(NoMatch, s, [])
      else if n == 0 then
        Result(Fault(BadNumber), s[k..], [])
      else
        var magnitude := DigitsValue(s[k..k + n]);
        Result(Match(Int(Signed(negative, magnitude))), s[k + n..], [])
  }

  /** The length of the run of digits with at most one '.', from `i`;
      `point` says whether a '.' was already taken. */
  function DecimalRun(s: seq<char>, i: nat, point: bool): (n: nat)
    requires i <= |s|
    ensures i + n <= |s|
    decreases |s| - i
  {
    if i < |s| && (IsDigit(s[i]) || (s[i] == '.' && !point)) then
      1 + DecimalRun(s, i + 1, point || s[i] == '.')
    else 0
  }

  predicate HasDigit(t: seq<char>)
  {
    exists j :: 0 <= j < |t| && IsDigit(t[j])
  }

  /** The lambda of `Parser<double>` (Parser.hpp:248-285), up to the
      conversion: the value is the collected lexeme. */
  function DecimalScan(s: seq<char>): (r: Result)
    ensures |r.rest| <= |s|
  {
    if |s| == 0 then Result(NoMatch, s, [])
    else
      var k := SignLength(s);
      var n := DecimalRun(s, k, false);
      var lexeme := (if s[0] == '-' then "-" else "") + s[k..k + n];
      if lexeme == [] then Result(NoMatch, s, [])
      else
        if !HasDigit(lexeme) then Result(Fault(BadNumber), s[k + n..], [])
        else Result(Match(Real(lexeme)), s[k + n..], [])
  }

  // ---------------------------------------------------------------- parsers

  /** `operator()` of a parser: run its form, then fire its action once if
      the form matched. */
  function Run(env: Env, p: Parser, s: seq<char>, fuel: nat): (r: Result)
    ensures |r.rest| <= |s|
    ensures r.out.Match? ==> HasKind(r.out.v, KindOf(p.form))
    decreases fuel, Size(p), 0, 0
  {
    var m := Step(env, p.form, s, fuel);
    if m.out.Match? then Result(m.out, m.rest, m.events + Fire(p, m.out.v)) else m
  }

  /** The lambdas of the primitive parsers (Parser.hpp:100-162, 248-354,
      833-957): each consumes one fixed-shape token or nothing. */
  function Primitive(f: Form, s: seq<char>): (r: Result)
    requires f.Char? || f.Literal? || f.Class? || f.Digit? || f.Integer? || f.Decimal?
    ensures |r.rest| <= |s|
    ensures r.out.Match? ==> HasKind(r.out.v, KindOf(f))
    ensures r.events == []
  {
    match f
    case Char(c) =>
      if |s| > 0 && s[0] == c then Result(Match(Chr(c)), s[1..], []) else Result(NoMatch, s, [])
    case Literal(t) =>
      if |s| >= |t| && s[..|t|] == t then
        Result(Match(Text(t)), s[|t|..], [])
      else Result(NoMatch, s, [])
    case Class(k) =>
      if |s| > 0 && InClass(k, s[0]) then Result(Match(Chr(s[0])), s[1..], [])
      else Result(NoMatch, s, [])
    case Digit =>
      if |s| > 0 && IsDigit(s[0]) then Result(Match(Int(DigitOf(s[0]))), s[1..], [])
      else Result(NoMatch, s, [])
    case Integer => IntegerScan(s)
    case Decimal => DecimalScan(s)
  }

  /** The matching lambda (`func`) of each form. */
  function Step(env: Env, f: Form, s: seq<char>, fuel: nat): (r: Result)
    ensures |r.rest| <= |s|
    ensures r.out.Match? ==> HasKind(r.out.v, KindOf(f))
    decreases fuel, FormSize(f), 2, 0
  {
    match f
    case Sequence(a, b) => RunSequence(env, a, b, s, fuel)
    case Choice(a, b) => RunChoice(env, a, b, s, fuel)
    case Attempt(q) => RunAttempt(env, q, s, fuel)
    case Star(q) => RunStar(env, q, s, fuel)
    case Plus(q) => RunPlus(env, q, s, fuel)
    case Until(q) => RunUntil(env, q, s, fuel)
    case Exclude(a, b) => RunExclude(env, a, b, s, fuel)
    case Span(o, c) => RunSpan(env, o, c, s, fuel)
    case Nested(o, e, c) => RunNested(env, o, e, c, s, fuel)
    case Repeat(n, q) => RunRepeat(env, n, q, s, fuel)
    case Rule(name) => RunRule(env, name, s, fuel)
    case _ => Primitive(f, s)
  }

  /** `a >> b` (Parser.hpp:393-495): both run on a copy of the view, which
      is committed only when both matched. */
  function RunSequence(env: Env, a: Parser, b: Parser, s: seq<char>, fuel: nat): (r: Result)
    ensures |r.rest| <= |s|
    ensures r.out.Match? ==> r.out.v.Flag?
    decreases fuel, Size(a) + Size(b) + 1, 1, 0
  {
    var ra := Run(env, a, s, fuel);
    if !ra.out.Match? then Result(ra.out, s, ra.events)
    else
      var rb := Run(env, b, ra.rest, fuel);
      if !rb.out.Match? then Result(rb.out, s, ra.events + rb.events)
      else
        Result(Match(Flag), rb.rest, ra.events + rb.events)
  }

  /** `a | b` (Parser.hpp:501-546): `left(stream) || right(stream)` on the
      caller's own view. */
  function RunChoice(env: Env, a: Parser, b: Parser, s: seq<char>, fuel: nat): (r: Result)
    ensures |r.rest| <= |s|
    ensures r.out.Match? ==> r.out.v.Flag?
    decreases fuel, Size(a) + Size(b) + 1, 1, 0
  {
    var ra := Run(env, a, s, fuel);
    if ra.out.Match? then Result(Match(Flag), ra.rest, ra.events)
    else if ra.out.Fault? then ra
    else
      var rb := Run(env, b, ra.rest, fuel);
      Result(if rb.out.Match? then Match(Flag) else rb.out, rb.rest, ra.events + rb.events)
  }

  /** `!p` (Parser.hpp:550-563). */
  function RunAttempt(env: Env, q: Parser, s: seq<char>, fuel: nat): (r: Result)
    ensures |r.rest| <= |s|
    ensures r.out.Match? ==> r.out.v.Flag?
    decreases fuel, Size(q) + 1, 1, 0
  {
    if |s| == 0 then Result(NoMatch, s, [])
    else
      var t := Run(env, q, s, fuel);
      Result(if t.out.Fault? then t.out else Match(Flag), t.rest, t.events)
  }

  /** The loop `while (parser(stream))` of `*` and `+` (Parser.hpp:577-581,
      596-602, 653-659), from view `cur` with the chars `acc` collected and
      the events `ev` fired so far.  It ends at the first failed attempt,
      whose effect on the view is kept; it never reports no match. */
  function StarLoop(env: Env, q: Parser, cur: seq<char>, acc: seq<char>, ev: seq<Event>, fuel: nat): (r: Result)
    ensures |r.rest| <= |cur|
    ensures r.out.Match? || r.out.Fault?
    ensures r.out.Match? ==> r.out.v.Chars?
    decreases fuel, Size(q) + 1, 0, |cur|
  {
    var t := Run(env, q, cur, fuel);
    match t.out
    case Fault(_) => Result(t.out, t.rest, ev + t.events)
    case NoMatch => Result(Match(Chars(acc)), t.rest, ev + t.events)
    case Match(v) =>
      if |t.rest| < |cur| then
        var l := StarLoop(env, q, t.rest, acc + CharOf(v), ev + t.events, fuel);
        l
      else Result(Fault(Diverges), t.rest, ev + t.events)
  }

  /** The value of a loop over `q`: the collected chars for the
      `Parser<char>` overloads, a flag otherwise. */
  function Collected(q: Parser, out: Outcome): Outcome
  {
    if out.Match? && KindOf(q.form) != KChar then Match(Flag) else out
  }

  /** `*p` (Parser.hpp:565-605): no match on an empty view, else the loop. */
  function RunStar(env: Env, q: Parser, s: seq<char>, fuel: nat): (r: Result)
    ensures |r.rest| <= |s|
    ensures r.out.Match? ==> HasKind(r.out.v, KindOf(Star(q)))
    decreases fuel, Size(q) + 1, 1, 0
  {
    if |s| == 0 then Result(NoMatch, s, [])
    else
      var l := StarLoop(env, q, s, [], [], fuel);
      Result(Collected(q, l.out), l.rest, l.events)
  }

  /** `+p` (Parser.hpp:607-669): one attempt that must match, then the loop. */
  function RunPlus(env: Env, q: Parser, s: seq<char>, fuel: nat): (r: Result)
    ensures |r.rest| <= |s|
    ensures r.out.Match? ==> HasKind(r.out.v, KindOf(Plus(q)))
    decreases fuel, Size(q) + 1, 1, 0
  {
    if |s| == 0 then Result(NoMatch, s, [])
    else
      var t := Run(env, q, s, fuel);
      match t.out
      case Fault(_) => t
      case NoMatch => Result(NoMatch, t.rest, t.events)
      case Match(v) =>
        var l := StarLoop(env, q, t.rest, CharOf(v), t.events, fuel);
        Result(Collected(q, l.out), l.rest, l.events)
  }

  /** The scanning loop of `~` and `-` (Parser.hpp:683-688, 714-719): while
      the last attempt of `q` failed and the view is not empty, move one char
      of the view into `acc` and try `q` again.  The result is the scanned
      text (or the fault that stopped the scan) and the view as left. */
  function ScanLoop(env: Env, q: Parser, last: Outcome, cur: seq<char>, acc: seq<char>,
                    ev: seq<Event>, fuel: nat): (r: Result)
    ensures |r.rest| <= |cur|
    ensures r.out.Match? || r.out.Fault?
    ensures r.out.Match? ==> r.out.v.Text? && |r.out.v.text| + |r.rest| <= |acc| + |cur|
    decreases fuel, Size(q) + 1, 0, |cur|
  {
    if last.Fault? then Result(last, cur, ev)
    else if last.NoMatch? && |cur| > 0 then
      var t := Run(env, q, cur[1..], fuel);
      var l := ScanLoop(env, q, t.out, t.rest, acc + [cur[0]], ev + t.events, fuel);
      l
    else Result(Match(Text(acc)), cur, ev)
  }

  /** `~p` (Parser.hpp:671-698), on the caller's own view. */
  function RunUntil(env: Env, q: Parser, s: seq<char>, fuel: nat): (r: Result)
    ensures |r.rest| <= |s|
    ensures r.out.Match? ==> r.out.v.Text?
    decreases fuel, Size(q) + 1, 1, 0
  {
    if |s| == 0 then Result(NoMatch, s, [])
    else
      var t := Run(env, q, s, fuel);
      var l := ScanLoop(env, q, t.out, t.rest, [], t.events, fuel);
      if l.out.Match? && l.out.v.text == [] then Result(NoMatch, l.rest, l.events) else l
  }

  /** `a - b` (Parser.hpp:700-817): scan a copy of the view up to the first
      match of `b`, run `a` on the scanned text alone, and advance the
      caller's view by what `a` consumed of it.  (The test for an empty view
      at the top of the lambda is a no-op; the scan fails on it anyway.) */
  function RunExclude(env: Env, a: Parser, b: Parser, s: seq<char>, fuel: nat): (r: Result)
    ensures |r.rest| <= |s|
    ensures r.out.Match? ==> r.out.v.Flag?
    decreases fuel, Size(a) + Size(b) + 1, 1, 0
  {
    var t := Run(env, b, s, fuel);
    var l := ScanLoop(env, b, t.out, t.rest, [], t.events, fuel);
    if l.out.Fault? then Result(l.out, s, l.events)
    else
      var text := l.out.v.text;
      if text == [] then Result(NoMatch, s, l.events)
      else
        var ra := Run(env, a, text, fuel);
        if ra.out.Match? then
          Result(Match(Flag), s[|text| - |ra.rest|..], l.events + ra.events)
        else Result(ra.out, s, l.events + ra.events)
  }

  /** The depth scan of both `pair`s (Parser.hpp:987-1002, 1045-1085): with
      `depth` openers unclosed, try `close`, then `open`, else skip a char. */
  function BalanceLoop(env: Env, o: Parser, c: Parser, cur: seq<char>, depth: nat, closeLen: nat,
                       ev: seq<Event>, fuel: nat): (r: Balance)
    ensures |r.rest| <= |cur|
    ensures r.out.Match? && depth > 0 ==> r.closeLen <= |cur| - |r.rest|
    decreases fuel, Size(o) + Size(c) + 1, 0, 2 * |cur| + depth
  {
    if depth == 0 then Balance(Match(Flag), cur, closeLen, ev)
    else if |cur| == 0 then Balance(NoMatch, cur, closeLen, ev)
    else
      var rc := Run(env, c, cur, fuel);
      if rc.out.Fault? then Balance(rc.out, rc.rest, closeLen, ev + rc.events)
      else if rc.out.Match? then
        var l := BalanceLoop(env, o, c, rc.rest, depth - 1, |cur| - |rc.rest|, ev + rc.events, fuel);
        l
      else
        var ro := Run(env, o, rc.rest, fuel);
        var ev' := ev + rc.events + ro.events;
        if ro.out.Fault? then Balance(ro.out, ro.rest, closeLen, ev')
        else if ro.out.Match? then
          if |ro.rest| < |cur| then
            var l := BalanceLoop(env, o, c, ro.rest, depth + 1, closeLen, ev', fuel);
            l
          else Balance(Fault(Diverges), ro.rest, closeLen, ev')
        else if |ro.rest| == 0 then Balance(Fault(Undefined), ro.rest, closeLen, ev')
        else
          var l := BalanceLoop(env, o, c, ro.rest[1..], depth, closeLen, ev', fuel);
          l
  }

  /** Two-argument `pair(open, close)` (Parser.hpp:971-1014): the balanced
      span, opener through the closer that brings the depth to 0. */
  function RunSpan(env: Env, o: Parser, c: Parser, s: seq<char>, fuel: nat): (r: Result)
    ensures |r.rest| <= |s|
    ensures r.out.Match? ==> r.out.v.Chars?
    decreases fuel, Size(o) + Size(c) + 1, 1, 0
  {
    if |s| == 0 then Result(NoMatch, s, [])
    else
      var ro := Run(env, o, s, fuel);
      if !ro.out.Match? then Result(ro.out, s, ro.events)
      else
        var l := BalanceLoop(env, o, c, ro.rest, 1, 0, ro.events, fuel);
        if l.out.Match? then
          Result(Match(Chars(s[..|s| - |l.rest|])), l.rest, l.events)
        else Result(l.out, s, l.events)
  }

  /** Three-argument `pair(open, exp, close)` (Parser.hpp:1016-1107): find
      the balanced span as above, run `exp` on its interior (the span without
      the first opener and the last closer: what follows the opener, up to
      where the last closer began) and succeed when `exp` leaves nothing of
      it, whatever `exp` itself returned. */
  function RunNested(env: Env, o: Parser, e: Parser, c: Parser, s: seq<char>, fuel: nat): (r: Result)
    ensures |r.rest| <= |s|
    ensures r.out.Match? ==> r.out.v.Flag?
    decreases fuel, Size(o) + Size(e) + Size(c) + 1, 1, 0
  {
    if |s| == 0 then Result(NoMatch, s, [])
    else
      var ro := Run(env, o, s, fuel);
      if !ro.out.Match? then Result(ro.out, s, ro.events)
      else NestedAfterOpener(env, o, e, c, s, ro, fuel)
  }

  /** The three-argument `pair` after its opener matched on `s`, leaving
      `ro`: the depth scan, then `exp` on the interior. */
  function NestedAfterOpener(env: Env, o: Parser, e: Parser, c: Parser, s: seq<char>, ro: Result,
                             fuel: nat): (r: Result)
    requires |ro.rest| <= |s|
    ensures |r.rest| <= |s|
    ensures r.out.Match? ==> r.out.v.Flag?
    decreases fuel, Size(o) + Size(e) + Size(c) + 1, 0, 0
  {
    var l := BalanceLoop(env, o, c, ro.rest, 1, 0, ro.events, fuel);
    if !l.out.Match? then Result(l.out, s, l.events)
    else
      var inner := ro.rest[..|ro.rest| - |l.rest| - l.closeLen];
      NestedEnd(s, l, Run(env, e, inner, fuel))
  }

  /** How the three-argument `pair` ends once `exp` ran on the interior,
      leaving `re`: a fault propagates, an interior left empty consumes the
      balanced span, anything else fails with the input kept. */
  function NestedEnd(s: seq<char>, l: Balance, re: Result): (r: Result)
    requires |l.rest| <= |s|
    ensures |r.rest| <= |s|
    ensures r.events == l.events + re.events
    ensures r.out.Match? <==> !re.out.Fault? && re.rest == []
    ensures r.out.Fault? <==> re.out.Fault?
  {
    if re.out.Fault? then Result(re.out, s, l.events + re.events)
    else if re.rest == [] then Result(Match(Flag), l.rest, l.events + re.events)
    else Result(NoMatch, s, l.events + re.events)
  }

  /** The counted loop of `repeat` (Parser.hpp:1120-1140, 1155-1164): every
      one of the `left` remaining attempts runs, matched or not, on the
      caller's view; `all` says whether every attempt so far matched. */
  function RepeatLoop(env: Env, q: Parser, left: nat, cur: seq<char>, all: bool, acc: seq<char>,
                      ev: seq<Event>, fuel: nat): (r: Result)
    ensures |r.rest| <= |cur|
    ensures r.out.Match? ==> r.out.v.Chars?
    decreases fuel, Size(q) + 1, 0, left
  {
    if left == 0 then Result(if all then Match(Chars(acc)) else NoMatch, cur, ev)
    else
      var t := Run(env, q, cur, fuel);
      if t.out.Fault? then Result(t.out, t.rest, ev + t.events)
      else
        var l := RepeatLoop(env, q, left - 1, t.rest, all && t.out.Match?,
                            if t.out.Match? then acc + CharOf(t.out.v) else acc, ev + t.events, fuel);
        l
  }

  /** `repeat(times, p)` (Parser.hpp:1109-1175). */
  function RunRepeat(env: Env, n: nat, q: Parser, s: seq<char>, fuel: nat): (r: Result)
    ensures |r.rest| <= |s|
    ensures r.out.Match? ==> HasKind(r.out.v, KindOf(Repeat(n, q)))
    decreases fuel, Size(q) + 1, 1, 0
  {
    if |s| == 0 then Result(NoMatch, s, [])
    else
      var l := RepeatLoop(env, q, n, s, true, [], [], fuel);
      Result(Collected(q, l.out), l.rest, l.events)
  }

  /** The address `ref` takes (Parser.hpp:1178-1353), dereferenced when the
      composite runs; only whether it matched is used. */
  function RunRule(env: Env, name: string, s: seq<char>, fuel: nat): (r: Result)
    ensures |r.rest| <= |s|
    ensures r.out.Match? ==> r.out.v.Flag?
    decreases fuel, 1, 1, 0
  {
    if name !in env then Result(Fault(Undefined), s, [])
    else if fuel == 0 then Result(Fault(OutOfFuel), s, [])
    else
      var r := Run(env, env[name], s, fuel - 1);
      Result(if r.out.Match? then Match(Flag) else r.out, r.rest, r.events)
  }
}
