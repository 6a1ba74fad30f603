/**
 * The matching lambdas of Parser.hpp as the imperative code they are: each
 * works on the caller's `std::string_view&` (a `View`, advanced in place by
 * `RemovePrefix`), runs its loops with counters and buffers, and fires the
 * bound actions as it goes (a `Log` the events are appended to).  Every
 * method is proved to do exactly what the reference semantics of
 * semantics.dfy says: the same answer, the same view afterwards, the same
 * events appended.
 *
 * The copy-based combinators run their operands on a fresh `View` (the
 * C++ `stream_copy`) and commit it to the caller's view only on success.
 */
module Machine {
  import opened Parsers
  import opened Semantics

  /** A `std::string_view` onto the input: the part not consumed yet. */
  class View {
    var rest: seq<char>

    constructor (s: seq<char>)
      ensures rest == s
    {
      rest := s;
    }

    method RemovePrefix(n: nat)
      requires n <= |rest|
      modifies this
      ensures rest == old(rest)[n..] && IsSuffix(rest, old(rest))
    {
      DropIsSuffix(rest, n);
      rest := rest[n..];
    }

    method RemoveSuffix(n: nat)
      requires n <= |rest|
      modifies this
      ensures rest == old(rest)[..|old(rest)| - n]
    {
      rest := rest[..|rest| - n];
    }
  }

  /** The effects of the bound actions, in the order they happen. */
  class Log {
    var events: seq<Event>

    constructor ()
      ensures events == []
    {
      events := [];
    }

    method Emit(e: seq<Event>)
      modifies this
      ensures events == old(events) + e
    {
      events := events + e;
    }
  }

  lemma AppendAssoc<T>(a: seq<T>, b: seq<T>, c: seq<T>)
    ensures a + b + c == a + (b + c)
  {
  }

  /** The C++ interior of a `pair`, cut out of the whole input: take the
      span, drop the opener, drop the last closer. */
  lemma Interior(s: seq<char>, t: seq<char>, u: seq<char>, k: nat)
    requires IsSuffix(t, s) && IsSuffix(u, t) && k <= |t| - |u|
    ensures s[|s| - |t|..|s| - |u| - k] == t[..|t| - |u| - k]
  {
    SuffixSlice(t, s);
    SuffixSlice(u, t);
  }

  /** A run answered `out`, left the view at `rest` and appended to the
      events `before` exactly the events of `r`. */
  predicate Did(r: Result, out: Outcome, rest: seq<char>, before: seq<Event>, after: seq<Event>)
  {
    out == r.out && rest == r.rest && after == before + r.events
  }

  /** `operator()` (Parser.hpp:21-29, 62-76, 203-217, 366-374): the lambda, then the
      action once if it matched. */
  method Exec(env: Env, p: Parser, view: View, log: Log, fuel: nat) returns (out: Outcome)
    modifies view, log
    ensures IsSuffix(view.rest, old(view.rest))
    ensures Did(Run(env, p, old(view.rest), fuel), out, view.rest, old(log.events), log.events)
    decreases fuel, Size(p), 0
  {
    out := ExecForm(env, p.form, view, log, fuel);
    if out.Match? {
      log.Emit(Fire(p, out.v));
    }
  }

  method ExecForm(env: Env, f: Form, view: View, log: Log, fuel: nat) returns (out: Outcome)
    modifies view, log
    ensures IsSuffix(view.rest, old(view.rest))
    ensures Did(Step(env, f, old(view.rest), fuel), out, view.rest, old(log.events), log.events)
    decreases fuel, FormSize(f), 3
  {
    match f
    case Sequence(a, b) => out := ExecSequence(env, a, b, view, log, fuel);
    case Choice(a, b) => out := ExecChoice(env, a, b, view, log, fuel);
    case Attempt(q) => out := ExecAttempt(env, q, view, log, fuel);
    case Star(q) => out := ExecStar(env, q, view, log, fuel);
    case Plus(q) => out := ExecPlus(env, q, view, log, fuel);
    case Until(q) => out := ExecUntil(env, q, view, log, fuel);
    case Exclude(a, b) => out := ExecExclude(env, a, b, view, log, fuel);
    case Span(o, c) => out := ExecSpan(env, o, c, view, log, fuel);
    case Nested(o, e, c) => out := ExecNested(env, o, e, c, view, log, fuel);
    case Repeat(n, q) => out := ExecRepeat(env, n, q, view, log, fuel);
    case Rule(name) => out := ExecRule(env, name, view, log, fuel);
    case _ => out := ExecPrimitive(f, view);
  }

  // ------------------------------------------------------------- primitives

  /** The lambdas of the literal, class and digit parsers. */
  method ExecPrimitive(f: Form, view: View) returns (out: Outcome)
    requires f.Char? || f.Literal? || f.Class? || f.Digit? || f.Integer? || f.Decimal?
    modifies view
    ensures IsSuffix(view.rest, old(view.rest))
    ensures out == Primitive(f, old(view.rest)).out && view.rest == Primitive(f, old(view.rest)).rest
  {
    match f
    case Char(c) =>
      if |view.rest| > 0 && view.rest[0] == c {
        view.RemovePrefix(1);
        out := Match(Chr(c));
      } else {
        out := NoMatch;
      }
    case Literal(t) =>
      if |view.rest| >= |t| && view.rest[..|t|] == t {
        view.RemovePrefix(|t|);
        out := Match(Text(t));
      } else {
        out := NoMatch;
      }
    case Class(k) =>
      if |view.rest| > 0 && InClass(k, view.rest[0]) {
        var ch := view.rest[0];
        view.RemovePrefix(1);
        out := Match(Chr(ch));
      } else {
        out := NoMatch;
      }
    case Digit =>
      if |view.rest| > 0 && IsDigit(view.rest[0]) {
        var value := DigitOf(view.rest[0]);
        view.RemovePrefix(1);
        out := Match(Int(value));
      } else {
        out := NoMatch;
      }
    case Integer => out := ExecInteger(view);
    case Decimal => out := ExecDecimal(view);
  }

  /** `std::stoi` on the collected buffer `[-]digits` (range check left
      out): a lone '-' throws. */
  function Stoi(num: seq<char>): (r: Outcome)
    ensures r.Match? ==> r.v.Int?
  {
    if |num| > 0 && num[0] == '-' then
      if |num| == 1 then Fault(BadNumber) else Match(Int(Signed(true, DigitsValue(num[1..]))))
    else Match(Int(DigitsValue(num)))
  }

  /** `std::stod` on the collected buffer: it throws when there is no digit
      to convert; the value is kept as its lexeme. */
  function Stod(num: seq<char>): (r: Outcome)
    ensures r.Match? ==> r.v.Real? && r.v.lexeme == num
    ensures r.Fault? <==> !HasDigit(num)
  {
    if HasDigit(num) then Match(Real(num)) else Fault(BadNumber)
  }

  /** The lambda of `Parser<int>` (Parser.hpp:323-354), with the index loop
      bounded by the length of the view (see the findings in README.md). */
  method ExecInteger(view: View) returns (out: Outcome)
    modifies view
    ensures IsSuffix(view.rest, old(view.rest))
    ensures out == IntegerScan(old(view.rest)).out && view.rest == IntegerScan(old(view.rest)).rest
  {
    var s := view.rest;
    if |s| == 0 {
      return NoMatch;
    }
    var index: nat := 0;
    var num: seq<char> := [];
    if s[0] == '+' {
      index := 1;
    } else if s[0] == '-' {
      index := 1;
      num := ['-'];
    }
    ghost var k := index;
    ghost var sign := num;
    index, num := CollectDigits(s, index, num);
    IntegerCollected(s, sign, s[k..index]);
    if num == [] {
      return NoMatch;
    }
    view.RemovePrefix(index);
    out := Stoi(num);
  }

  /** The index loop of `Parser<int>` (Parser.hpp:340-343): append digits
      to the buffer `num` while there are any. */
  method CollectDigits(s: seq<char>, index0: nat, num0: seq<char>) returns (index: nat, num: seq<char>)
    requires index0 <= |s|
    ensures index == index0 + DigitRun(s, index0) && num == num0 + s[index0..index]
  {
    index, num := index0, num0;
    while index < |s| && IsDigit(s[index])
      invariant index0 <= index <= |s|
      invariant index + DigitRun(s, index) == index0 + DigitRun(s, index0)
      invariant num == num0 + s[index0..index]
      decreases |s| - index
    {
      assert s[index0..index + 1] == s[index0..index] + [s[index]];
      AppendAssoc(num0, s[index0..index], [s[index]]);
      num := num + [s[index]];
      index := index + 1;
    }
  }

  /** What the index loop of `Parser<int>` leaves behind (the sign it
      kept, then the maximal digit run) converts to the scan's result. */
  lemma IntegerCollected(s: seq<char>, sign: seq<char>, digits: seq<char>)
    requires |s| > 0 && sign == (if s[0] == '-' then ['-'] else [])
    requires digits == s[SignLength(s)..SignLength(s) + DigitRun(s, SignLength(s))]
    ensures sign + digits == [] ==> IntegerScan(s) == Result(NoMatch, s, [])
    ensures sign + digits != [] ==>
      IntegerScan(s) == Result(Stoi(sign + digits), s[SignLength(s) + |digits|..], [])
  {
    if sign == [] {
      assert sign + digits == digits;
      if digits != [] {
        assert IsDigit(digits[0]);
      }
    } else {
      assert (sign + digits)[0] == '-' && (sign + digits)[1..] == digits;
    }
  }

  /** The lambda of `Parser<double>` (Parser.hpp:248-285): sign, then
      digits with at most one '.'. */
  method ExecDecimal(view: View) returns (out: Outcome)
    modifies view
    ensures IsSuffix(view.rest, old(view.rest))
    ensures out == DecimalScan(old(view.rest)).out && view.rest == DecimalScan(old(view.rest)).rest
  {
    var s := view.rest;
    if |s| == 0 {
      return NoMatch;
    }
    var index: nat := 0;
    var num: seq<char> := [];
    if s[0] == '+' {
      index := 1;
    } else if s[0] == '-' {
      index := 1;
      num := ['-'];
    }
    ghost var k := index;
    ghost var sign := num;
    index, num := CollectDecimal(s, index, num);
    DecimalCollected(s, sign, s[k..index]);
    if num == [] {
      return NoMatch;
    }
    view.RemovePrefix(index);
    out := Stod(num);
  }

  /** The index loop of `Parser<double>` (Parser.hpp:262-276): append
      digits, and the first '.', to the buffer `num`. */
  method CollectDecimal(s: seq<char>, index0: nat, num0: seq<char>) returns (index: nat, num: seq<char>)
    requires index0 <= |s|
    ensures index == index0 + DecimalRun(s, index0, false) && num == num0 + s[index0..index]
  {
    index, num := index0, num0;
    var findPoint := false;
    while index < |s| && (IsDigit(s[index]) || (s[index] == '.' && !findPoint))
      invariant index0 <= index <= |s|
      invariant index + DecimalRun(s, index, findPoint) == index0 + DecimalRun(s, index0, false)
      invariant num == num0 + s[index0..index]
      decreases |s| - index
    {
      assert s[index0..index + 1] == s[index0..index] + [s[index]];
      AppendAssoc(num0, s[index0..index], [s[index]]);
      num := num + [s[index]];
      if s[index] == '.' {
        findPoint := true;
      }
      index := index + 1;
    }
  }

  /** What the index loop of `Parser<double>` leaves behind converts to
      the scan's result. */
  lemma DecimalCollected(s: seq<char>, sign: seq<char>, body: seq<char>)
    requires |s| > 0 && sign == (if s[0] == '-' then ['-'] else [])
    requires body == s[SignLength(s)..SignLength(s) + DecimalRun(s, SignLength(s), false)]
    ensures sign + body == [] ==> DecimalScan(s) == Result(NoMatch, s, [])
    ensures sign + body != [] ==>
      DecimalScan(s) == Result(Stod(sign + body), s[SignLength(s) + |body|..], [])
  {
  }

  // ------------------------------------------------------------ combinators

  /** `a >> b` (Parser.hpp:393-413). */
  method ExecSequence(env: Env, a: Parser, b: Parser, view: View, log: Log, fuel: nat) returns (out: Outcome)
    modifies view, log
    ensures IsSuffix(view.rest, old(view.rest))
    ensures Did(RunSequence(env, a, b, old(view.rest), fuel), out, view.rest, old(log.events), log.events)
    decreases fuel, Size(a) + Size(b) + 1, 1
  {
    ghost var s := view.rest;
    var copy := new View(view.rest);
    var left := Exec(env, a, copy, log, fuel);
    ghost var ra := Run(env, a, s, fuel);
    if !left.Match? {
      return left;
    }
    var right := Exec(env, b, copy, log, fuel);
    ghost var rb := Run(env, b, ra.rest, fuel);
    AppendAssoc(old(log.events), ra.events, rb.events);
    if !right.Match? {
      return right;
    }
    assert copy.rest == s[|s| - |copy.rest|..] by {
      SuffixTrans(rb.rest, ra.rest, s);
      SuffixSlice(rb.rest, s);
    }
    view.RemovePrefix(|view.rest| - |copy.rest|);
    out := Match(Flag);
  }

  /** `a | b` (Parser.hpp:501-509). */
  method ExecChoice(env: Env, a: Parser, b: Parser, view: View, log: Log, fuel: nat) returns (out: Outcome)
    modifies view, log
    ensures IsSuffix(view.rest, old(view.rest))
    ensures Did(RunChoice(env, a, b, old(view.rest), fuel), out, view.rest, old(log.events), log.events)
    decreases fuel, Size(a) + Size(b) + 1, 1
  {
    ghost var s := view.rest;
    var left := Exec(env, a, view, log, fuel);
    if left.Match? {
      return Match(Flag);
    } else if left.Fault? {
      return left;
    }
    ghost var mid := view.rest;
    var right := Exec(env, b, view, log, fuel);
    SuffixTrans(view.rest, mid, s);
    out := if right.Match? then Match(Flag) else right;
  }

  /** `!p` (Parser.hpp:550-563). */
  method ExecAttempt(env: Env, q: Parser, view: View, log: Log, fuel: nat) returns (out: Outcome)
    modifies view, log
    ensures IsSuffix(view.rest, old(view.rest))
    ensures Did(RunAttempt(env, q, old(view.rest), fuel), out, view.rest, old(log.events), log.events)
    decreases fuel, Size(q) + 1, 1
  {
    if |view.rest| == 0 {
      return NoMatch;
    }
    var t := Exec(env, q, view, log, fuel);
    out := if t.Fault? then t else Match(Flag);
  }

  /** The loop `temp = parser(stream); while (temp) ...` of `*` and `+`,
      entered with the chars `acc0` collected and the events `ev0` of this
      call fired after `base`.  Where the C++ loop would spin forever (a
      match that consumed nothing) it stops and reports `Diverges`. */
  method ExecLoop(env: Env, q: Parser, view: View, log: Log, acc0: seq<char>,
                  ghost base: seq<Event>, ghost ev0: seq<Event>, fuel: nat) returns (out: Outcome)
    requires log.events == base + ev0
    modifies view, log
    ensures IsSuffix(view.rest, old(view.rest))
    ensures Did(StarLoop(env, q, old(view.rest), acc0, ev0, fuel), out, view.rest, base, log.events)
    decreases fuel, Size(q) + 1, 0
  {
    ghost var goal := StarLoop(env, q, view.rest, acc0, ev0, fuel);
    ghost var start := view.rest;
    var acc := acc0;
    ghost var ev := ev0;
    var before := view.rest;
    var temp := Exec(env, q, view, log, fuel);
    while temp.Match? && |view.rest| < |before|
      invariant Did(Run(env, q, before, fuel), temp, view.rest, base + ev, log.events)
      invariant StarLoop(env, q, before, acc, ev, fuel) == goal
      invariant IsSuffix(view.rest, before) && IsSuffix(before, start)
      decreases |before|
    {
      SuffixTrans(view.rest, before, start);
      acc := acc + CharOf(temp.v);
      ev := ev + Run(env, q, before, fuel).events;
      before := view.rest;
      temp := Exec(env, q, view, log, fuel);
    }
    AppendAssoc(base, ev, Run(env, q, before, fuel).events);
    SuffixTrans(view.rest, before, start);
    if temp.Fault? {
      out := temp;
    } else if temp.NoMatch? {
      out := Match(Chars(acc));
    } else {
      out := Fault(Diverges);
    }
  }

  /** `*p` (Parser.hpp:565-605). */
  method ExecStar(env: Env, q: Parser, view: View, log: Log, fuel: nat) returns (out: Outcome)
    modifies view, log
    ensures IsSuffix(view.rest, old(view.rest))
    ensures Did(RunStar(env, q, old(view.rest), fuel), out, view.rest, old(log.events), log.events)
    decreases fuel, Size(q) + 1, 1
  {
    if |view.rest| == 0 {
      return NoMatch;
    }
    var l := ExecLoop(env, q, view, log, [], log.events, [], fuel);
    out := Collected(q, l);
  }

  /** `+p` (Parser.hpp:607-669). */
  method ExecPlus(env: Env, q: Parser, view: View, log: Log, fuel: nat) returns (out: Outcome)
    modifies view, log
    ensures IsSuffix(view.rest, old(view.rest))
    ensures Did(RunPlus(env, q, old(view.rest), fuel), out, view.rest, old(log.events), log.events)
    decreases fuel, Size(q) + 1, 1
  {
    if |view.rest| == 0 {
      return NoMatch;
    }
    ghost var s := view.rest;
    var first := Exec(env, q, view, log, fuel);
    if !first.Match? {
      return first;
    }
    ghost var mid := view.rest;
    var l := ExecLoop(env, q, view, log, CharOf(first.v), old(log.events), Run(env, q, s, fuel).events, fuel);
    SuffixTrans(view.rest, mid, s);
    out := Collected(q, l);
  }

  /** The scanning loop of `~` and `-` (Parser.hpp:683-688, 714-719): while
      the last attempt `last` failed and the view is not empty, move its
      first char into the buffer and try again. */
  method ExecScan(env: Env, q: Parser, view: View, log: Log, last: Outcome, acc0: seq<char>,
                  ghost base: seq<Event>, ghost ev0: seq<Event>, fuel: nat) returns (out: Outcome)
    requires log.events == base + ev0
    modifies view, log
    ensures IsSuffix(view.rest, old(view.rest))
    ensures Did(ScanLoop(env, q, last, old(view.rest), acc0, ev0, fuel), out, view.rest, base, log.events)
    decreases fuel, Size(q) + 1, 0
  {
    ghost var goal := ScanLoop(env, q, last, view.rest, acc0, ev0, fuel);
    ghost var start := view.rest;
    var temp := last;
    var acc := acc0;
    ghost var ev := ev0;
    while temp.NoMatch? && |view.rest| > 0
      invariant log.events == base + ev
      invariant ScanLoop(env, q, temp, view.rest, acc, ev, fuel) == goal
      invariant IsSuffix(view.rest, start)
      decreases |view.rest|
    {
      acc := acc + [view.rest[0]];
      ghost var prev := view.rest;
      view.RemovePrefix(1);
      ghost var cur := view.rest;
      temp := Exec(env, q, view, log, fuel);
      SuffixTrans(cur, prev, start);
      SuffixTrans(view.rest, cur, start);
      AppendAssoc(base, ev, Run(env, q, cur, fuel).events);
      ev := ev + Run(env, q, cur, fuel).events;
    }
    out := if temp.Fault? then temp else Match(Text(acc));
  }

  /** `~p` (Parser.hpp:671-698). */
  method ExecUntil(env: Env, q: Parser, view: View, log: Log, fuel: nat) returns (out: Outcome)
    modifies view, log
    ensures IsSuffix(view.rest, old(view.rest))
    ensures Did(RunUntil(env, q, old(view.rest), fuel), out, view.rest, old(log.events), log.events)
    decreases fuel, Size(q) + 1, 1
  {
    if |view.rest| == 0 {
      return NoMatch;
    }
    ghost var s := view.rest;
    var temp := Exec(env, q, view, log, fuel);
    ghost var mid := view.rest;
    var l := ExecScan(env, q, view, log, temp, [], old(log.events), Run(env, q, s, fuel).events, fuel);
    SuffixTrans(view.rest, mid, s);
    out := if l.Match? && l.v.text == [] then NoMatch else l;
  }

  /** `a - b` (Parser.hpp:700-738). */
  method ExecExclude(env: Env, a: Parser, b: Parser, view: View, log: Log, fuel: nat) returns (out: Outcome)
    modifies view, log
    ensures IsSuffix(view.rest, old(view.rest))
    ensures Did(RunExclude(env, a, b, old(view.rest), fuel), out, view.rest, old(log.events), log.events)
    decreases fuel, Size(a) + Size(b) + 1, 1
  {
    ghost var s := view.rest;
    var copy := new View(view.rest);
    var temp := Exec(env, b, copy, log, fuel);
    ghost var t := Run(env, b, s, fuel);
    var l := ExecScan(env, b, copy, log, temp, [], old(log.events), t.events, fuel);
    ghost var scan := ScanLoop(env, b, t.out, t.rest, [], t.events, fuel);
    if l.Fault? {
      return l;
    }
    var text := l.v.text;
    if text == [] {
      return NoMatch;
    }
    var sub := new View(text);
    var start := |sub.rest|;
    var result := Exec(env, a, sub, log, fuel);
    ghost var ra := Run(env, a, text, fuel);
    AppendAssoc(old(log.events), scan.events, ra.events);
    assert view.rest == s;
    if result.Match? {
      view.RemovePrefix(start - |sub.rest|);
      out := Match(Flag);
    } else {
      out := result;
    }
  }

  /** The depth scan of both `pair`s (Parser.hpp:987-1002, 1043-1085) on the
      copy of the view: try `close`, else `open`, else skip one char, until
      the depth is 0 or the view is empty.  `closeLen` is `right_length`. */
  method ExecBalance(env: Env, o: Parser, c: Parser, view: View, log: Log, depth0: nat, closeLen0: nat,
                     ghost base: seq<Event>, ghost ev0: seq<Event>, fuel: nat)
      returns (out: Outcome, closeLen: nat)
    requires log.events == base + ev0
    modifies view, log
    ensures IsSuffix(view.rest, old(view.rest))
    ensures var r := BalanceLoop(env, o, c, old(view.rest), depth0, closeLen0, ev0, fuel);
      out == r.out && closeLen == r.closeLen && view.rest == r.rest && log.events == base + r.events
    decreases fuel, Size(o) + Size(c) + 1, 0
  {
    ghost var goal := BalanceLoop(env, o, c, view.rest, depth0, closeLen0, ev0, fuel);
    ghost var start := view.rest;
    var depth := depth0;
    closeLen := closeLen0;
    ghost var ev := ev0;
    while depth > 0 && |view.rest| > 0
      invariant log.events == base + ev
      invariant BalanceLoop(env, o, c, view.rest, depth, closeLen, ev, fuel) == goal
      invariant IsSuffix(view.rest, start)
      decreases 2 * |view.rest| + depth
    {
      var temp := |view.rest|;
      ghost var cur := view.rest;
      var closed := Exec(env, c, view, log, fuel);
      SuffixTrans(view.rest, cur, start);
      AppendAssoc(base, ev, Run(env, c, cur, fuel).events);
      ev := ev + Run(env, c, cur, fuel).events;
      if closed.Fault? {
        return closed, closeLen;
      } else if closed.Match? {
        depth := depth - 1;
        closeLen := temp - |view.rest|;
      } else {
        ghost var mid := view.rest;
        var entered := Exec(env, o, view, log, fuel);
        SuffixTrans(view.rest, mid, start);
        AppendAssoc(base, ev, Run(env, o, mid, fuel).events);
        ev := ev + Run(env, o, mid, fuel).events;
        if entered.Fault? {
          return entered, closeLen;
        } else if entered.Match? {
          if |view.rest| >= temp {
            return Fault(Diverges), closeLen;
          }
          depth := depth + 1;
        } else {
          if |view.rest| == 0 {
            return Fault(Undefined), closeLen;
          }
          ghost var last := view.rest;
          view.RemovePrefix(1);
          SuffixTrans(view.rest, last, start);
        }
      }
    }
    out := if depth == 0 then Match(Flag) else NoMatch;
  }

  /** Two-argument `pair(open, close)` (Parser.hpp:971-1014). */
  method ExecSpan(env: Env, o: Parser, c: Parser, view: View, log: Log, fuel: nat) returns (out: Outcome)
    modifies view, log
    ensures IsSuffix(view.rest, old(view.rest))
    ensures Did(RunSpan(env, o, c, old(view.rest), fuel), out, view.rest, old(log.events), log.events)
    decreases fuel, Size(o) + Size(c) + 1, 1
  {
    if |view.rest| == 0 {
      return NoMatch;
    }
    ghost var s := view.rest;
    var copy := new View(view.rest);
    var entered := Exec(env, o, copy, log, fuel);
    ghost var ro := Run(env, o, s, fuel);
    if !entered.Match? {
      return entered;
    }
    ghost var mid := copy.rest;
    var balanced, _ := ExecBalance(env, o, c, copy, log, 1, 0, old(log.events), ro.events, fuel);
    if balanced.Match? {
      SuffixTrans(copy.rest, mid, s);
      SuffixSlice(copy.rest, s);
      var n := |view.rest| - |copy.rest|;
      out := Match(Chars(view.rest[..n]));
      view.RemovePrefix(n);
    } else {
      out := balanced;
    }
  }

  /** Three-argument `pair(open, exp, close)` (Parser.hpp:1016-1107). */
  method ExecNested(env: Env, o: Parser, e: Parser, c: Parser, view: View, log: Log, fuel: nat)
      returns (out: Outcome)
    modifies view, log
    ensures IsSuffix(view.rest, old(view.rest))
    ensures Did(RunNested(env, o, e, c, old(view.rest), fuel), out, view.rest, old(log.events), log.events)
    decreases fuel, Size(o) + Size(e) + Size(c) + 1, 2
  {
    if |view.rest| == 0 {
      return NoMatch;
    }
    var copy := new View(view.rest);
    var entered := Exec(env, o, copy, log, fuel);
    if !entered.Match? {
      return entered;
    }
    out := ExecNestedBody(env, o, e, c, view, copy, log, Run(env, o, view.rest, fuel), old(log.events), fuel);
  }

  /** The rest of the three-argument `pair`, with the opener's run `ro`
      already on the copy `copy` of the view. */
  method ExecNestedBody(env: Env, o: Parser, e: Parser, c: Parser, view: View, copy: View, log: Log,
                        ghost ro: Result, ghost base: seq<Event>, fuel: nat) returns (out: Outcome)
    requires copy != view && IsSuffix(ro.rest, view.rest)
    requires copy.rest == ro.rest && log.events == base + ro.events
    modifies view, copy, log
    ensures IsSuffix(view.rest, old(view.rest))
    ensures Did(NestedAfterOpener(env, o, e, c, old(view.rest), ro, fuel), out, view.rest, base, log.events)
    decreases fuel, Size(o) + Size(e) + Size(c) + 1, 1
  {
    ghost var s := view.rest;
    var leftLength := |view.rest| - |copy.rest|;
    var balanced, rightLength := ExecBalance(env, o, c, copy, log, 1, 0, base, ro.events, fuel);
    ghost var l := BalanceLoop(env, o, c, ro.rest, 1, 0, ro.events, fuel);
    if !balanced.Match? {
      return balanced;
    }
    SuffixTrans(copy.rest, ro.rest, s);
    var n := |view.rest| - |copy.rest|;
    var result, empty := ExecInterior(env, e, view.rest, n, leftLength, rightLength, ro.rest, l.rest, log, fuel);
    ghost var re := Run(env, e, ro.rest[..|ro.rest| - |l.rest| - l.closeLen], fuel);
    AppendAssoc(base, l.events, re.events);
    out := ExecNestedEnd(view, n, result, empty, l, re);
  }

  /** The end of the three-argument `pair` (Parser.hpp:1094-1104): the
      caller's view advances over the span of length `n` only if the
      interior run left nothing. */
  method ExecNestedEnd(view: View, n: nat, result: Outcome, empty: bool, ghost l: Balance, ghost re: Result)
      returns (out: Outcome)
    requires IsSuffix(l.rest, view.rest) && n == |view.rest| - |l.rest|
    requires result == re.out && empty == (re.rest == [])
    modifies view
    ensures IsSuffix(view.rest, old(view.rest))
    ensures out == NestedEnd(old(view.rest), l, re).out && view.rest == NestedEnd(old(view.rest), l, re).rest
  {
    if result.Fault? {
      out := result;
    } else if empty {
      SuffixSlice(l.rest, view.rest);
      view.RemovePrefix(n);
      out := Match(Flag);
    } else {
      out := NoMatch;
    }
  }

  /** The interior run of the three-argument `pair` (Parser.hpp:1087-1100):
      a fresh view of the first `n` chars of `text` loses the opener and the
      last closer, `exp` runs on what is left, and `empty` tells whether it
      left nothing.  With `entered` what followed the opener and `after`
      what followed the span, that is what `entered` has before the closer. */
  method ExecInterior(env: Env, e: Parser, text: seq<char>, n: nat, leftLength: nat, rightLength: nat,
                      ghost entered: seq<char>, ghost after: seq<char>, log: Log, fuel: nat)
      returns (out: Outcome, empty: bool)
    requires IsSuffix(entered, text) && IsSuffix(after, entered)
    requires leftLength == |text| - |entered| && n == |text| - |after| && rightLength <= |entered| - |after|
    modifies log
    ensures var r := Run(env, e, entered[..|entered| - |after| - rightLength], fuel);
      out == r.out && empty == (r.rest == []) && log.events == old(log.events) + r.events
    decreases fuel, Size(e), 1
  {
    var inner := new View(text[..n]);
    inner.RemovePrefix(leftLength);
    inner.RemoveSuffix(rightLength);
    assert inner.rest == entered[..|entered| - |after| - rightLength] by {
      Interior(text, entered, after, rightLength);
    }
    out := Exec(env, e, inner, log, fuel);
    empty := inner.rest == [];
  }

  /** `repeat(times, p)` (Parser.hpp:1109-1175): every attempt runs. */
  method ExecRepeat(env: Env, times: nat, q: Parser, view: View, log: Log, fuel: nat) returns (out: Outcome)
    modifies view, log
    ensures IsSuffix(view.rest, old(view.rest))
    ensures Did(RunRepeat(env, times, q, old(view.rest), fuel), out, view.rest, old(log.events), log.events)
    decreases fuel, Size(q) + 1, 1
  {
    if |view.rest| == 0 {
      return NoMatch;
    }
    ghost var goal := RepeatLoop(env, q, times, view.rest, true, [], [], fuel);
    var count := 0;
    var result: seq<char> := [];
    ghost var ev: seq<Event> := [];
    for i := 0 to times
      invariant count <= i
      invariant log.events == old(log.events) + ev
      invariant RepeatLoop(env, q, times - i, view.rest, count == i, result, ev, fuel) == goal
      invariant IsSuffix(view.rest, old(view.rest))
    {
      ghost var cur := view.rest;
      var temp := Exec(env, q, view, log, fuel);
      SuffixTrans(view.rest, cur, old(view.rest));
      AppendAssoc(old(log.events), ev, Run(env, q, cur, fuel).events);
      ev := ev + Run(env, q, cur, fuel).events;
      if temp.Fault? {
        return temp;
      }
      if temp.Match? {
        count := count + 1;
        result := result + CharOf(temp.v);
      }
    }
    out := Collected(q, if count == times then Match(Chars(result)) else NoMatch);
  }

  /** A `ref` operand (Parser.hpp:1188-1353): dereference the rule now. */
  method ExecRule(env: Env, name: string, view: View, log: Log, fuel: nat) returns (out: Outcome)
    modifies view, log
    ensures IsSuffix(view.rest, old(view.rest))
    ensures Did(RunRule(env, name, old(view.rest), fuel), out, view.rest, old(log.events), log.events)
    decreases fuel, 1, 1
  {
    if name !in env {
      return Fault(Undefined);
    }
    if fuel == 0 {
      return Fault(OutOfFuel);
    }
    var r := Exec(env, env[name], view, log, fuel - 1);
    out := if r.Match? then Match(Flag) else r;
  }
}
