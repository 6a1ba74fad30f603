/**
 * The expression grammar of ExpParser.cpp, built from the combinators of
 * Parser.hpp:
 *
 *   exper  = ref(term)   >> *((ch_p('+') >> ref(term))[add]   | (ch_p('-') >> ref(term))[sub])
 *   term   = ref(factor) >> *((ch_p('*') >> ref(factor))[mul] | (ch_p('/') >> ref(factor))[div])
 *   factor = int_p()[num] | confix_p(ch_p('('), ref(exper), ch_p(')'))
 *
 * The `Importer` callbacks only print; here each firing is an event.
 * The three rules refer to each other through `ref`, resolved by name in
 * `Grammar()` when a rule runs.
 */
module ExpParser {
  import opened Parsers
  import opened Semantics
  import opened Tokens
  import opened Laws
  import opened Machine

  // ------------------------------------------------------------- grammar

  /** The choice between the two operators of one precedence level, each
      followed by an operand and firing its action. */
  function Alternatives(sub: string, o1: char, t1: string, o2: char, t2: string): Parser
  {
    Or(Attach(Then(ChP(o1), Ref(sub)), Void(t1)), Attach(Then(ChP(o2), Ref(sub)), Void(t2)))
  }

  /** One precedence level: an operand, then any number of operator and
      operand pairs. */
  function Level(sub: string, o1: char, t1: string, o2: char, t2: string): Parser
  {
    Then(Ref(sub), Many(Alternatives(sub, o1, t1, o2, t2)))
  }

  /** `exper` (ExpParser.cpp:44-45). */
  function Exper(): Parser { Level("term", '+', "add", '-', "sub") }

  /** `term` (ExpParser.cpp:47-48). */
  function Term(): Parser { Level("factor", '*', "mul", '/', "div") }

  /** `factor` (ExpParser.cpp:50). */
  function Factor(): Parser
  {
    Or(Attach(IntP(), Typed("num")), ConfixP(ChP('('), Ref("exper"), ChP(')')))
  }

  /** The rules `ref` points to. */
  function Grammar(): Env
  {
    map["exper" := Exper(), "term" := Term(), "factor" := Factor()]
  }

  /** The event of `Importer::num(value)`. */
  function Num(n: int): Event { Event("num", IntArg(n)) }

  /** The event of `Importer::add`, `sub`, `mul` or `div`. */
  function Op(tag: string): Event { Event(tag, NoArg) }

  // --------------------------------------------------------------- rules

  /** A `ref` to `exper` runs `exper` with one unit of fuel less; the
      rule has the `Parser<bool>` value, so nothing else changes. */
  lemma ExperRule(s: seq<char>, fuel: nat)
    requires fuel > 0
    ensures Run(Grammar(), Ref("exper"), s, fuel) == Run(Grammar(), Exper(), s, fuel - 1)
  {
    RefLaw(Grammar(), "exper", s, fuel);
  }

  /** A `ref` to `term` runs `term` with one unit of fuel less. */
  lemma TermRule(s: seq<char>, fuel: nat)
    requires fuel > 0
    ensures Run(Grammar(), Ref("term"), s, fuel) == Run(Grammar(), Term(), s, fuel - 1)
  {
    RefLaw(Grammar(), "term", s, fuel);
  }

  /** A `ref` to `factor` runs `factor` with one unit of fuel less. */
  lemma FactorRule(s: seq<char>, fuel: nat)
    requires fuel > 0
    ensures Run(Grammar(), Ref("factor"), s, fuel) == Run(Grammar(), Factor(), s, fuel - 1)
  {
    RefLaw(Grammar(), "factor", s, fuel);
  }

  // -------------------------------------------------------------- factor

  /** `factor` tries `int_p` first: an integer at the front is consumed
      and fires `num` with its value; only when `int_p` does not match does
      the parenthesised alternative run, on the view as it was. */
  lemma FactorLaw(env: Env, s: seq<char>, fuel: nat)
    ensures var ri := Run(env, IntP(), s, fuel);
      var rf := Run(env, Factor(), s, fuel);
      (ri.out.Match? ==> ri.out.v.Int? && rf == Result(Match(Flag), ri.rest, [Num(ri.out.v.n)])) &&
      (ri.out.NoMatch? ==> rf == Run(env, ConfixP(ChP('('), Ref("exper"), ChP(')')), s, fuel)) &&
      (ri.out.Fault? ==> rf == ri)
  {
    var num := Attach(IntP(), Typed("num"));
    var paren := ConfixP(ChP('('), Ref("exper"), ChP(')'));
    var ri := Run(env, IntP(), s, fuel);
    assert Run(env, Factor(), s, fuel) == RunChoice(env, num, paren, s, fuel) by {
      PlainRun(env, Choice(num, paren), s, fuel);
    }
    NumIs(env, s, fuel);
    if ri.out.NoMatch? {
      var rp := Run(env, paren, s, fuel);
      assert [] + rp.events == rp.events;
    }
  }

  /** `int_p()[num]`: `int_p`, with `num` fired on a match; `int_p` fires
      nothing and keeps the view when it does not match. */
  lemma NumIs(env: Env, s: seq<char>, fuel: nat)
    ensures var ri := Run(env, IntP(), s, fuel);
      var rn := Run(env, Attach(IntP(), Typed("num")), s, fuel);
      ri.events == [] && (ri.out.NoMatch? ==> ri.rest == s) &&
      (ri.out.Match? ==> ri.out.v.Int? && rn == Result(ri.out, ri.rest, [Num(ri.out.v.n)])) &&
      (!ri.out.Match? ==> rn == ri)
  {
    assert Run(env, IntP(), s, fuel).out.NoMatch? ==> Run(env, IntP(), s, fuel).rest == s by {
      IntegerLaw(env, s, fuel);
    }
  }

  /** A printed integer at the front is one factor. */
  lemma FactorNum(env: Env, n: int, t: seq<char>, fuel: nat)
    requires t == [] || !IsDigit(t[0])
    ensures Run(env, Factor(), Show(n) + t, fuel) == Result(Match(Flag), t, [Num(n)])
  {
    FactorLaw(env, Show(n) + t, fuel);
    IntegerRoundTrip(env, n, t, fuel);
  }

  /** A view that starts with neither a digit, a sign nor '(' holds no
      factor: nothing is consumed and nothing fires. */
  lemma FactorNone(env: Env, s: seq<char>, fuel: nat)
    requires |s| > 0 && !IsDigit(s[0]) && s[0] != '+' && s[0] != '-' && s[0] != '('
    ensures Run(env, Factor(), s, fuel) == Result(NoMatch, s, [])
  {
    FactorLaw(env, s, fuel);
    assert Run(env, IntP(), s, fuel).out.NoMatch? by {
      IntegerLaw(env, s, fuel);
    }
    ConfixShape(env, '(', Ref("exper"), ')', s, fuel);
  }

  // ----------------------------------------------------- operator levels

  /** One operator alternative: its char, then an operand; on a match its
      action fires after the operand's events; on failure the view is as
      it was. */
  lemma OperatorIs(env: Env, o: char, sub: string, tag: string, s: seq<char>, fuel: nat)
    ensures var r := Run(env, Attach(Then(ChP(o), Ref(sub)), Void(tag)), s, fuel);
      (!(|s| > 0 && s[0] == o) ==> r == Result(NoMatch, s, [])) &&
      (|s| > 0 && s[0] == o ==>
         var rs := Run(env, Ref(sub), s[1..], fuel);
         r == if rs.out.Match? then Result(Match(Flag), rs.rest, rs.events + [Op(tag)])
              else Result(rs.out, s, rs.events))
  {
    ThenIs(env, ChP(o), Ref(sub), s, fuel);
    CharLaw(env, o, s, fuel);
    if |s| > 0 && s[0] == o {
      var rs := Run(env, Ref(sub), s[1..], fuel);
      assert [] + rs.events == rs.events;
    }
  }

  /** Neither operator at the front: the alternatives fail, consuming
      nothing and firing nothing. */
  lemma AlternativesMiss(env: Env, sub: string, o1: char, t1: string, o2: char, t2: string,
                         s: seq<char>, fuel: nat)
    requires !(|s| > 0 && (s[0] == o1 || s[0] == o2))
    ensures Run(env, Alternatives(sub, o1, t1, o2, t2), s, fuel) == Result(NoMatch, s, [])
  {
    var a := Attach(Then(ChP(o1), Ref(sub)), Void(t1));
    var b := Attach(Then(ChP(o2), Ref(sub)), Void(t2));
    PlainRun(env, Choice(a, b), s, fuel);
    assert Step(env, Choice(a, b), s, fuel) == RunChoice(env, a, b, s, fuel);
    OperatorIs(env, o1, sub, t1, s, fuel);
    OperatorIs(env, o2, sub, t2, s, fuel);
  }

  /** An operator at the front: its operand runs on the rest; a match
      fires the operator's action after the operand's events. */
  lemma AlternativesHit(env: Env, sub: string, o1: char, t1: string, o2: char, t2: string,
                        s: seq<char>, fuel: nat)
    requires o1 != o2 && |s| > 0 && (s[0] == o1 || s[0] == o2)
    ensures var rs := Run(env, Ref(sub), s[1..], fuel);
      var tag := if s[0] == o1 then t1 else t2;
      Run(env, Alternatives(sub, o1, t1, o2, t2), s, fuel) ==
      if rs.out.Match? then Result(Match(Flag), rs.rest, rs.events + [Op(tag)])
      else Result(rs.out, s, rs.events)
  {
    var a := Attach(Then(ChP(o1), Ref(sub)), Void(t1));
    var b := Attach(Then(ChP(o2), Ref(sub)), Void(t2));
    PlainRun(env, Choice(a, b), s, fuel);
    assert Step(env, Choice(a, b), s, fuel) == RunChoice(env, a, b, s, fuel);
    OperatorIs(env, o1, sub, t1, s, fuel);
    OperatorIs(env, o2, sub, t2, s, fuel);
    var rs := Run(env, Ref(sub), s[1..], fuel);
    assert rs.events + [] == rs.events;
    assert [] + (rs.events + [Op(t2)]) == rs.events + [Op(t2)];
    assert [] + rs.events == rs.events;
  }

  /** The `*` loop of a level stops, as a match, at a char that is no
      operator of the level (or at the end of the view). */
  lemma LoopStops(env: Env, sub: string, o1: char, t1: string, o2: char, t2: string,
                  cur: seq<char>, acc: seq<char>, ev: seq<Event>, fuel: nat)
    requires !(|cur| > 0 && (cur[0] == o1 || cur[0] == o2))
    ensures StarLoop(env, Alternatives(sub, o1, t1, o2, t2), cur, acc, ev, fuel) == Result(Match(Chars(acc)), cur, ev)
  {
    StarLoopStep(env, Alternatives(sub, o1, t1, o2, t2), cur, acc, ev, fuel);
    AlternativesMiss(env, sub, o1, t1, o2, t2, cur, fuel);
    assert ev + [] == ev;
  }

  /** One turn of the `*` loop of a level at an operator: a matching
      operand goes round again after it; an operand that does not match
      ends the loop as a match, with the view before the operator and the
      operand's events kept; an operand that faults ends it with that
      fault. */
  lemma LoopTurns(env: Env, sub: string, o1: char, t1: string, o2: char, t2: string,
                  cur: seq<char>, acc: seq<char>, ev: seq<Event>, fuel: nat)
    requires o1 != o2 && |cur| > 0 && (cur[0] == o1 || cur[0] == o2)
    ensures var q := Alternatives(sub, o1, t1, o2, t2);
      var rs := Run(env, Ref(sub), cur[1..], fuel);
      var tag := if cur[0] == o1 then t1 else t2;
      (rs.out.Match? ==> StarLoop(env, q, cur, acc, ev, fuel) == StarLoop(env, q, rs.rest, acc, ev + (rs.events + [Op(tag)]), fuel)) &&
      (rs.out.NoMatch? ==> StarLoop(env, q, cur, acc, ev, fuel) == Result(Match(Chars(acc)), cur, ev + rs.events)) &&
      (rs.out.Fault? ==> StarLoop(env, q, cur, acc, ev, fuel) == Result(rs.out, cur, ev + rs.events))
  {
    var q := Alternatives(sub, o1, t1, o2, t2);
    StarLoopStep(env, q, cur, acc, ev, fuel);
    AlternativesHit(env, sub, o1, t1, o2, t2, cur, fuel);
    assert acc + CharOf(Flag) == acc;
  }

  /** The `*` of a level on a view with no operator at its front matches
      and consumes nothing. */
  lemma LoopNone(env: Env, sub: string, o1: char, t1: string, o2: char, t2: string, s: seq<char>, fuel: nat)
    requires |s| > 0 && s[0] != o1 && s[0] != o2
    ensures Run(env, Many(Alternatives(sub, o1, t1, o2, t2)), s, fuel) == Result(Match(Flag), s, [])
  {
    StarIs(env, Alternatives(sub, o1, t1, o2, t2), s, fuel);
    LoopStops(env, sub, o1, t1, o2, t2, s, [], [], fuel);
  }

  /** The `*` of a level over exactly one operator and operand. */
  lemma LoopOnce(env: Env, sub: string, o1: char, t1: string, o2: char, t2: string, s: seq<char>, fuel: nat)
    requires o1 != o2 && |s| > 0 && (s[0] == o1 || s[0] == o2)
    requires var rs := Run(env, Ref(sub), s[1..], fuel);
      rs.out.Match? && !(|rs.rest| > 0 && (rs.rest[0] == o1 || rs.rest[0] == o2))
    ensures var rs := Run(env, Ref(sub), s[1..], fuel);
      var tag := if s[0] == o1 then t1 else t2;
      Run(env, Many(Alternatives(sub, o1, t1, o2, t2)), s, fuel) ==
      Result(Match(Flag), rs.rest, rs.events + [Op(tag)])
  {
    var rs := Run(env, Ref(sub), s[1..], fuel);
    var tag := if s[0] == o1 then t1 else t2;
    StarIs(env, Alternatives(sub, o1, t1, o2, t2), s, fuel);
    LoopTurns(env, sub, o1, t1, o2, t2, s, [], [], fuel);
    LoopStops(env, sub, o1, t1, o2, t2, rs.rest, [], [] + (rs.events + [Op(tag)]), fuel);
    assert [] + (rs.events + [Op(tag)]) == rs.events + [Op(tag)];
  }

  /** The `*` of a level whose first operand does not match: the loop
      still matches, consumes nothing, and keeps the operand's events. */
  lemma LoopBroken(env: Env, sub: string, o1: char, t1: string, o2: char, t2: string, s: seq<char>, fuel: nat)
    requires o1 != o2 && |s| > 0 && (s[0] == o1 || s[0] == o2)
    requires Run(env, Ref(sub), s[1..], fuel).out.NoMatch?
    ensures Run(env, Many(Alternatives(sub, o1, t1, o2, t2)), s, fuel) ==
            Result(Match(Flag), s, Run(env, Ref(sub), s[1..], fuel).events)
  {
    StarIs(env, Alternatives(sub, o1, t1, o2, t2), s, fuel);
    LoopTurns(env, sub, o1, t1, o2, t2, s, [], [], fuel);
    assert [] + Run(env, Ref(sub), s[1..], fuel).events == Run(env, Ref(sub), s[1..], fuel).events;
  }

  /** A level is its first operand, then its `*` loop, run as a sequence:
      when the operand fails the level fails with the view unchanged; when
      the operand consumes everything the level fails too, because `*`
      rejects an empty view; otherwise the loop decides. */
  lemma LevelLaw(env: Env, sub: string, o1: char, t1: string, o2: char, t2: string, s: seq<char>, fuel: nat)
    ensures var rs := Run(env, Ref(sub), s, fuel);
      var r := Run(env, Level(sub, o1, t1, o2, t2), s, fuel);
      (!rs.out.Match? ==> r == Result(rs.out, s, rs.events)) &&
      (rs.out.Match? && rs.rest == [] ==> r == Result(NoMatch, s, rs.events)) &&
      (rs.out.Match? && rs.rest != [] ==>
         var tail := Run(env, Many(Alternatives(sub, o1, t1, o2, t2)), rs.rest, fuel);
         r == if tail.out.Match? then Result(Match(Flag), tail.rest, rs.events + tail.events)
              else Result(tail.out, s, rs.events + tail.events))
  {
    var q := Alternatives(sub, o1, t1, o2, t2);
    ThenIs(env, Ref(sub), Many(q), s, fuel);
    StarLaw(env, q, [], fuel);
    var rs := Run(env, Ref(sub), s, fuel);
    assert rs.events + [] == rs.events;
  }

  /** Whenever a level matches, its first operand left something for the
      `*` loop to see. */
  lemma LevelNeedsLeftover(env: Env, sub: string, o1: char, t1: string, o2: char, t2: string,
                           s: seq<char>, fuel: nat)
    requires Run(env, Level(sub, o1, t1, o2, t2), s, fuel).out.Match?
    ensures Run(env, Ref(sub), s, fuel).out.Match? && Run(env, Ref(sub), s, fuel).rest != []
  {
    LevelLaw(env, sub, o1, t1, o2, t2, s, fuel);
  }

  /** A level whose operand leaves `u` and whose loop then matches on `u`. */
  lemma LevelThen(env: Env, sub: string, o1: char, t1: string, o2: char, t2: string,
                  s: seq<char>, u: seq<char>, t: seq<char>, ev1: seq<Event>, ev2: seq<Event>, fuel: nat)
    requires Run(env, Ref(sub), s, fuel) == Result(Match(Flag), u, ev1) && u != []
    requires Run(env, Many(Alternatives(sub, o1, t1, o2, t2)), u, fuel) == Result(Match(Flag), t, ev2)
    ensures Run(env, Level(sub, o1, t1, o2, t2), s, fuel) == Result(Match(Flag), t, ev1 + ev2)
  {
    LevelLaw(env, sub, o1, t1, o2, t2, s, fuel);
  }

  /** A level whose operand consumes the whole view fails. */
  lemma LevelEmpty(env: Env, sub: string, o1: char, t1: string, o2: char, t2: string,
                   s: seq<char>, ev: seq<Event>, fuel: nat)
    requires Run(env, Ref(sub), s, fuel) == Result(Match(Flag), [], ev)
    ensures Run(env, Level(sub, o1, t1, o2, t2), s, fuel) == Result(NoMatch, s, ev)
  {
    LevelLaw(env, sub, o1, t1, o2, t2, s, fuel);
  }

  // ---------------------------------------------------- whole expressions

  /** `ref(factor)` over a printed integer: one factor, `num` fired. */
  lemma FactorRefNum(n: int, t: seq<char>, fuel: nat)
    requires fuel > 0 && (t == [] || !IsDigit(t[0]))
    ensures Run(Grammar(), Ref("factor"), Show(n) + t, fuel) == Result(Match(Flag), t, [Num(n)])
  {
    FactorRule(Show(n) + t, fuel);
    FactorNum(Grammar(), n, t, fuel - 1);
  }

  /** `term` over a single integer followed by a char that is neither a
      digit nor `*` nor `/`. */
  lemma TermOfNum(n: int, t: seq<char>, fuel: nat)
    requires fuel > 0 && |t| > 0 && !IsDigit(t[0]) && t[0] != '*' && t[0] != '/'
    ensures Run(Grammar(), Term(), Show(n) + t, fuel) == Result(Match(Flag), t, [Num(n)])
  {
    FactorRefNum(n, t, fuel);
    LoopNone(Grammar(), "factor", '*', "mul", '/', "div", t, fuel);
    LevelThen(Grammar(), "factor", '*', "mul", '/', "div", Show(n) + t, t, t, [Num(n)], [], fuel);
    assert [Num(n)] + [] == [Num(n)];
  }

  /** `term` over an integer followed by nothing: it fails, because its
      `*` sees an empty view. */
  lemma TermOfLastNum(n: int, fuel: nat)
    requires fuel > 0
    ensures Run(Grammar(), Term(), Show(n), fuel) == Result(NoMatch, Show(n), [Num(n)])
  {
    assert Show(n) + [] == Show(n);
    FactorRefNum(n, [], fuel);
    LevelEmpty(Grammar(), "factor", '*', "mul", '/', "div", Show(n), [Num(n)], fuel);
  }

  /** `term` over a product of two integers `m * n`, followed by a char
      that is neither a digit nor an operator of `term`, or by nothing:
      events num m, num n, mul. */
  lemma TermOfProduct(m: int, n: int, t: seq<char>, fuel: nat)
    requires fuel > 0 && (t == [] || (!IsDigit(t[0]) && t[0] != '*' && t[0] != '/'))
    ensures Run(Grammar(), Term(), Show(m) + ("*" + Show(n) + t), fuel) ==
            Result(Match(Flag), t, [Num(m), Num(n), Op("mul")])
  {
    var u := "*" + Show(n) + t;
    FactorRefNum(m, u, fuel);
    ProductTail(n, t, fuel);
    LevelThen(Grammar(), "factor", '*', "mul", '/', "div", Show(m) + u, u, t, [Num(m)], [Num(n), Op("mul")], fuel);
    assert [Num(m)] + [Num(n), Op("mul")] == [Num(m), Num(n), Op("mul")];
  }

  /** The loop of `term` over one "*" and an integer. */
  lemma ProductTail(n: int, t: seq<char>, fuel: nat)
    requires fuel > 0 && (t == [] || (!IsDigit(t[0]) && t[0] != '*' && t[0] != '/'))
    ensures Run(Grammar(), Many(Alternatives("factor", '*', "mul", '/', "div")), "*" + Show(n) + t, fuel) ==
            Result(Match(Flag), t, [Num(n), Op("mul")])
  {
    var u := "*" + Show(n) + t;
    assert u[1..] == Show(n) + t;
    FactorRefNum(n, t, fuel);
    LoopOnce(Grammar(), "factor", '*', "mul", '/', "div", u, fuel);
  }

  /** `ref(term)` over a single integer. */
  lemma TermRefNum(n: int, t: seq<char>, fuel: nat)
    requires fuel >= 2 && |t| > 0 && !IsDigit(t[0]) && t[0] != '*' && t[0] != '/'
    ensures Run(Grammar(), Ref("term"), Show(n) + t, fuel) == Result(Match(Flag), t, [Num(n)])
  {
    TermRule(Show(n) + t, fuel);
    TermOfNum(n, t, fuel - 1);
  }

  /** `ref(term)` over an integer that ends the view. */
  lemma TermRefLastNum(n: int, fuel: nat)
    requires fuel >= 2
    ensures Run(Grammar(), Ref("term"), Show(n), fuel) == Result(NoMatch, Show(n), [Num(n)])
  {
    TermRule(Show(n), fuel);
    TermOfLastNum(n, fuel - 1);
  }

  /** `ref(term)` over a product of two integers. */
  lemma TermRefProduct(m: int, n: int, t: seq<char>, fuel: nat)
    requires fuel >= 2 && (t == [] || (!IsDigit(t[0]) && t[0] != '*' && t[0] != '/'))
    ensures Run(Grammar(), Ref("term"), Show(m) + ("*" + Show(n) + t), fuel) ==
            Result(Match(Flag), t, [Num(m), Num(n), Op("mul")])
  {
    TermRule(Show(m) + ("*" + Show(n) + t), fuel);
    TermOfProduct(m, n, t, fuel - 1);
  }

  /** The operator events follow both operands: on "1+2*3 " `exper`
      matches, leaves the trailing blank, and the events are num 1, num 2,
      num 3, mul, add. */
  lemma SumOfProduct(fuel: nat)
    requires fuel >= 2
    ensures Run(Grammar(), Exper(), "1+2*3 ", fuel) ==
            Result(Match(Flag), " ", [Num(1), Num(2), Num(3), Op("mul"), Op("add")])
  {
    SumOfProductThen(" ", fuel);
    assert Show(1) + ("+" + (Show(2) + ("*" + Show(3) + " "))) == "1+2*3 ";
  }

  /** On "1+2*3" `exper` consumes the whole view: a level can match and
      leave nothing, because its `*` only rejects an empty view on entry. */
  lemma SumOfProductConsumesAll(fuel: nat)
    requires fuel >= 2
    ensures Run(Grammar(), Exper(), "1+2*3", fuel) ==
            Result(Match(Flag), [], [Num(1), Num(2), Num(3), Op("mul"), Op("add")])
  {
    SumOfProductThen([], fuel);
    assert Show(1) + ("+" + (Show(2) + ("*" + Show(3) + []))) == "1+2*3";
  }

  /** "1+2*3" followed by `t` (nothing, or a char that is no digit and no
      operator). */
  lemma SumOfProductThen(t: seq<char>, fuel: nat)
    requires fuel >= 2
    requires t == [] || (!IsDigit(t[0]) && t[0] != '*' && t[0] != '/' && t[0] != '+' && t[0] != '-')
    ensures Run(Grammar(), Exper(), Show(1) + ("+" + (Show(2) + ("*" + Show(3) + t))), fuel) ==
            Result(Match(Flag), t, [Num(1), Num(2), Num(3), Op("mul"), Op("add")])
  {
    var u := "+" + (Show(2) + ("*" + Show(3) + t));
    TermRefNum(1, u, fuel);
    SumTail(t, fuel);
    LevelThen(Grammar(), "term", '+', "add", '-', "sub", Show(1) + u, u, t,
              [Num(1)], [Num(2), Num(3), Op("mul"), Op("add")], fuel);
    SumOfProductEvents();
  }

  lemma SumOfProductEvents()
    ensures [Num(1)] + [Num(2), Num(3), Op("mul"), Op("add")] == [Num(1), Num(2), Num(3), Op("mul"), Op("add")]
  {
    assert ([Num(1)] + [Num(2), Num(3), Op("mul"), Op("add")])[1..] == [Num(2), Num(3), Op("mul"), Op("add")];
  }

  /** The loop of `exper` over "+2*3". */
  lemma SumTail(t: seq<char>, fuel: nat)
    requires fuel >= 2
    requires t == [] || (!IsDigit(t[0]) && t[0] != '*' && t[0] != '/' && t[0] != '+' && t[0] != '-')
    ensures Run(Grammar(), Many(Alternatives("term", '+', "add", '-', "sub")), "+" + (Show(2) + ("*" + Show(3) + t)), fuel) ==
            Result(Match(Flag), t, [Num(2), Num(3), Op("mul"), Op("add")])
  {
    var v := Show(2) + ("*" + Show(3) + t);
    var u := "+" + v;
    assert u[1..] == v;
    TermRefProduct(2, 3, t, fuel);
    LoopOnce(Grammar(), "term", '+', "add", '-', "sub", u, fuel);
    assert [Num(2), Num(3), Op("mul")] + [Op("add")] == [Num(2), Num(3), Op("mul"), Op("add")];
  }

  /** On "1*2" `exper` fails with the view unchanged, although `term`
      matched all of it and fired its events: `exper`'s `*` sees an empty
      view. */
  lemma ProductAloneFails(fuel: nat)
    requires fuel >= 2
    ensures Run(Grammar(), Exper(), "1*2", fuel) == Result(NoMatch, "1*2", [Num(1), Num(2), Op("mul")])
  {
    var s := Show(1) + ("*" + Show(2) + []);
    assert s == "1*2";
    TermRefProduct(1, 2, [], fuel);
    LevelEmpty(Grammar(), "term", '+', "add", '-', "sub", s, [Num(1), Num(2), Op("mul")], fuel);
  }

  /** The parenthesised alternative of `factor` can match: on "(1+2*3)"
      `exper` consumes everything before the ')', so `confix_p` matches
      and consumes the whole view. */
  lemma ParenthesisedFactor(fuel: nat)
    requires fuel >= 3
    ensures Run(Grammar(), Factor(), "(1+2*3)", fuel) ==
            Result(Match(Flag), [], [Num(1), Num(2), Num(3), Op("mul"), Op("add")])
  {
    var s := "(1+2*3)";
    InteriorOfSum(s);
    SumOfProductConsumesAll(fuel - 1);
    FactorOfParenthesised(s, 5, fuel);
  }

  lemma InteriorOfSum(s: seq<char>)
    requires s == "(1+2*3)"
    ensures IndexOf(')', s[1..]) == 5 && s[1..][..5] == "1+2*3" && s[1..][5 + 1..] == []
  {
    assert s[1..] == "1+2*3)";
    IndexOfAt(')', s[1..], 5);
  }

  /** On a view starting with '(' `factor` is its parenthesised
      alternative, whose value is a flag. */
  lemma ParenthesisedRuns(s: seq<char>, fuel: nat)
    requires |s| > 0 && s[0] == '('
    ensures var rp := Run(Grammar(), ConfixP(ChP('('), Ref("exper"), ChP(')')), s, fuel);
      Run(Grammar(), Factor(), s, fuel) == rp && (rp.out.Match? ==> rp.out == Match(Flag))
  {
    FactorLaw(Grammar(), s, fuel);
    assert Run(Grammar(), IntP(), s, fuel).out.NoMatch? by {
      IntegerLaw(Grammar(), s, fuel);
    }
  }

  /** `exper` on "4+7": the second operand of '+' is a `term` that
      consumes all of "7" and so fails; the loop stops before the '+'. */
  lemma BrokenSum(fuel: nat)
    requires fuel >= 2
    ensures Run(Grammar(), Exper(), "4+7", fuel) == Result(Match(Flag), "+7", [Num(4), Num(7)])
  {
    var u := "+" + Show(7);
    var s := Show(4) + u;
    assert s == "4+7" && u == "+7";
    TermRefNum(4, u, fuel);
    BrokenSumTail(fuel);
    LevelThen(Grammar(), "term", '+', "add", '-', "sub", s, u, u, [Num(4)], [Num(7)], fuel);
  }

  /** The loop of `exper` over "+7": its operand fails, so the loop
      matches nothing, keeping num 7. */
  lemma BrokenSumTail(fuel: nat)
    requires fuel >= 2
    ensures Run(Grammar(), Many(Alternatives("term", '+', "add", '-', "sub")), "+7", fuel) ==
            Result(Match(Flag), "+7", [Num(7)])
  {
    var u := "+" + Show(7);
    assert u == "+7" && u[1..] == Show(7);
    TermRefLastNum(7, fuel);
    LoopBroken(Grammar(), "term", '+', "add", '-', "sub", u, fuel);
  }

  /** A failed parenthesised attempt still fires the actions of what ran
      inside: on "(4+7) " `factor` fails, consuming nothing, after num 4
      and num 7. */
  lemma ParenthesisedFactorFails(fuel: nat)
    requires fuel >= 3
    ensures Run(Grammar(), Factor(), "(4+7) ", fuel) == Result(NoMatch, "(4+7) ", [Num(4), Num(7)])
  {
    var s := "(4+7) ";
    InteriorOfBrokenSum(s);
    BrokenSum(fuel - 1);
    FactorOfParenthesised(s, 3, fuel);
  }

  /** On a view starting with '(' and holding a ')' later, `factor` runs
      `exper` on the text before the first ')': it matches, after that
      ')', iff `exper` consumes all of that text; when `exper` does not
      match or leaves something, `factor` fails with the view unchanged,
      keeping `exper`'s events. */
  lemma FactorOfParenthesised(s: seq<char>, i: nat, fuel: nat)
    requires fuel > 0 && |s| > 0 && s[0] == '(' && 0 < i && i == IndexOf(')', s[1..])
    ensures var re := Run(Grammar(), Exper(), s[1..][..i], fuel - 1);
      (re.out.Match? && re.rest == [] && i < |s| - 1 ==>
         Run(Grammar(), Factor(), s, fuel) == Result(Match(Flag), s[1..][i + 1..], re.events)) &&
      (re.out.NoMatch? || (re.out.Match? && re.rest != []) ==>
         Run(Grammar(), Factor(), s, fuel) == Result(NoMatch, s, re.events))
  {
    ExperRule(s[1..][..i], fuel);
    ParenthesisedRuns(s, fuel);
    ConfixChar(Grammar(), '(', Ref("exper"), ')', s, fuel);
  }

  lemma InteriorOfBrokenSum(s: seq<char>)
    requires s == "(4+7) "
    ensures IndexOf(')', s[1..]) == 3 && s[1..][..3] == "4+7"
  {
    assert s[1..] == "4+7) ";
    IndexOfAt(')', s[1..], 3);
  }

  /** A view whose `factor` fails makes `term` fail the same way. */
  lemma TermOfNoFactor(s: seq<char>, fuel: nat)
    requires fuel > 0 && !Run(Grammar(), Factor(), s, fuel - 1).out.Match?
    ensures Run(Grammar(), Term(), s, fuel) == Run(Grammar(), Factor(), s, fuel - 1).(rest := s)
  {
    FactorRule(s, fuel);
    LevelLaw(Grammar(), "factor", '*', "mul", '/', "div", s, fuel);
  }

  /** A view whose `term` fails makes `exper` fail the same way. */
  lemma ExperOfNoTerm(s: seq<char>, fuel: nat)
    requires fuel > 0 && !Run(Grammar(), Term(), s, fuel - 1).out.Match?
    ensures Run(Grammar(), Exper(), s, fuel) == Run(Grammar(), Term(), s, fuel - 1).(rest := s)
  {
    TermRule(s, fuel);
    LevelLaw(Grammar(), "term", '+', "add", '-', "sub", s, fuel);
  }

  /** The same failure seen from `exper`: nothing consumed, the events of
      the interior kept. */
  lemma ParenthesisedSumFails(fuel: nat)
    requires fuel >= 5
    ensures Run(Grammar(), Exper(), "(4+7) ", fuel) == Result(NoMatch, "(4+7) ", [Num(4), Num(7)])
  {
    ParenthesisedFactorFails(fuel - 2);
    TermOfNoFactor("(4+7) ", fuel - 1);
    ExperOfNoTerm("(4+7) ", fuel);
  }

  /** No blank is skipped: a view that starts with one holds no
      expression, and nothing is consumed or fired. */
  lemma LeadingBlankFails(fuel: nat)
    requires fuel >= 2
    ensures Run(Grammar(), Exper(), " 12 + 24 * 4 - 7 * 8 ", fuel) == Result(NoMatch, " 12 + 24 * 4 - 7 * 8 ", [])
  {
    var s := " 12 + 24 * 4 - 7 * 8 ";
    FactorNone(Grammar(), s, fuel - 2);
    TermOfNoFactor(s, fuel - 1);
    ExperOfNoTerm(s, fuel);
  }

  /** `exper` over a single integer followed by a char that is neither a
      digit nor an operator. */
  lemma ExperOfNum(n: int, t: seq<char>, fuel: nat)
    requires fuel >= 2 && |t| > 0
    requires !IsDigit(t[0]) && t[0] != '*' && t[0] != '/' && t[0] != '+' && t[0] != '-'
    ensures Run(Grammar(), Exper(), Show(n) + t, fuel) == Result(Match(Flag), t, [Num(n)])
  {
    TermRefNum(n, t, fuel);
    LoopNone(Grammar(), "term", '+', "add", '-', "sub", t, fuel);
    LevelThen(Grammar(), "term", '+', "add", '-', "sub", Show(n) + t, t, t, [Num(n)], [], fuel);
    assert [Num(n)] + [] == [Num(n)];
  }

  /** No blank is skipped: after "12" the blank stops both loops, so
      `exper` matches "12" alone and fires only num 12. */
  lemma BlankEndsExpression(fuel: nat)
    requires fuel >= 2
    ensures Run(Grammar(), Exper(), "12 + 24 * ( 4 + 7 ) / 8", fuel) ==
            Result(Match(Flag), " + 24 * ( 4 + 7 ) / 8", [Num(12)])
  {
    TwelveThen();
    ExperOfNum(12, " + 24 * ( 4 + 7 ) / 8", fuel);
  }

  lemma TwelveThen()
    ensures Show(12) + " + 24 * ( 4 + 7 ) / 8" == "12 + 24 * ( 4 + 7 ) / 8"
  {
    assert Show(12) == "12";
  }

  // ---------------------------------------------------------------- fuel

  /** A run the C++ call would complete: it ends without a fault, or with
      the one a numeral's conversion raises (`std::stoi` throwing).  Running
      out of fuel, an unbound `ref` and a `*` loop that stops advancing are
      all excluded. */
  predicate Returns(r: Result)
  {
    !r.out.Fault? || r.out.reason == BadNumber
  }

  /** The fuel `exper` needs on `s`: each '(' that `factor` enters passes
      through `ref(exper)`, `ref(term)` and `ref(factor)` once more, and
      consumes at least one char. */
  function ExperFuel(s: seq<char>): nat
  {
    3 * |s| + 3
  }

  /** A level returns when its first operand does and, if that operand
      leaves something, its `*` loop does. */
  lemma LevelReturns(env: Env, sub: string, o1: char, t1: string, o2: char, t2: string, s: seq<char>, fuel: nat)
    requires Returns(Run(env, Ref(sub), s, fuel))
    requires var rs := Run(env, Ref(sub), s, fuel);
      rs.out.Match? && rs.rest != [] ==> Returns(Run(env, Many(Alternatives(sub, o1, t1, o2, t2)), rs.rest, fuel))
    ensures Returns(Run(env, Level(sub, o1, t1, o2, t2), s, fuel))
  {
    LevelLaw(env, sub, o1, t1, o2, t2, s, fuel);
  }

  /** `*q` returns when its loop from an empty buffer does. */
  lemma ManyReturns(env: Env, q: Parser, u: seq<char>, fuel: nat)
    requires |u| > 0 ==> Returns(StarLoop(env, q, u, [], [], fuel))
    ensures Returns(Run(env, Many(q), u, fuel))
  {
    StarLaw(env, q, u, fuel);
    StarIs(env, q, u, fuel);
  }

  /** With fuel `3 * |s| + 3`, `exper` on `s` returns. */
  lemma {:induction false} ExperReturns(s: seq<char>, fuel: nat)
    requires fuel >= 3 * |s| + 3
    ensures Returns(Run(Grammar(), Exper(), s, fuel))
    decreases |s|, 4
  {
    TermRule(s, fuel);
    TermReturns(s, fuel - 1);
    var rs := Run(Grammar(), Ref("term"), s, fuel);
    if rs.out.Match? && rs.rest != [] {
      SumLoopReturns(rs.rest, [], [], fuel);
      ManyReturns(Grammar(), Alternatives("term", '+', "add", '-', "sub"), rs.rest, fuel);
    }
    LevelReturns(Grammar(), "term", '+', "add", '-', "sub", s, fuel);
  }

  /** The `*` loop of `exper` returns on any view no longer than the one
      whose fuel it was given. */
  lemma {:induction false} SumLoopReturns(cur: seq<char>, acc: seq<char>, ev: seq<Event>, fuel: nat)
    requires fuel >= 3 * |cur| + 3
    ensures Returns(StarLoop(Grammar(), Alternatives("term", '+', "add", '-', "sub"), cur, acc, ev, fuel))
    decreases |cur|, 3
  {
    if |cur| > 0 && (cur[0] == '+' || cur[0] == '-') {
      TermRule(cur[1..], fuel);
      TermReturns(cur[1..], fuel - 1);
      LoopTurns(Grammar(), "term", '+', "add", '-', "sub", cur, acc, ev, fuel);
      var rs := Run(Grammar(), Ref("term"), cur[1..], fuel);
      if rs.out.Match? {
        var tag := if cur[0] == '+' then "add" else "sub";
        SumLoopReturns(rs.rest, acc, ev + (rs.events + [Op(tag)]), fuel);
      }
    } else {
      LoopStops(Grammar(), "term", '+', "add", '-', "sub", cur, acc, ev, fuel);
    }
  }

  /** With fuel `3 * |s| + 2`, `term` on `s` returns. */
  lemma {:induction false} TermReturns(s: seq<char>, fuel: nat)
    requires fuel >= 3 * |s| + 2
    ensures Returns(Run(Grammar(), Term(), s, fuel))
    decreases |s|, 2
  {
    FactorRule(s, fuel);
    FactorReturns(s, fuel - 1);
    var rs := Run(Grammar(), Ref("factor"), s, fuel);
    if rs.out.Match? && rs.rest != [] {
      ProductLoopReturns(rs.rest, [], [], fuel);
      ManyReturns(Grammar(), Alternatives("factor", '*', "mul", '/', "div"), rs.rest, fuel);
    }
    LevelReturns(Grammar(), "factor", '*', "mul", '/', "div", s, fuel);
  }

  /** The `*` loop of `term` returns on any view no longer than the one
      whose fuel it was given. */
  lemma {:induction false} ProductLoopReturns(cur: seq<char>, acc: seq<char>, ev: seq<Event>, fuel: nat)
    requires fuel >= 3 * |cur| + 2
    ensures Returns(StarLoop(Grammar(), Alternatives("factor", '*', "mul", '/', "div"), cur, acc, ev, fuel))
    decreases |cur|, 1
  {
    if |cur| > 0 && (cur[0] == '*' || cur[0] == '/') {
      FactorRule(cur[1..], fuel);
      FactorReturns(cur[1..], fuel - 1);
      LoopTurns(Grammar(), "factor", '*', "mul", '/', "div", cur, acc, ev, fuel);
      var rs := Run(Grammar(), Ref("factor"), cur[1..], fuel);
      if rs.out.Match? {
        var tag := if cur[0] == '*' then "mul" else "div";
        ProductLoopReturns(rs.rest, acc, ev + (rs.events + [Op(tag)]), fuel);
      }
    } else {
      LoopStops(Grammar(), "factor", '*', "mul", '/', "div", cur, acc, ev, fuel);
    }
  }

  /** With fuel `3 * |s| + 1`, `factor` on `s` returns: `int_p` faults only
      in its conversion, and the parenthesised alternative runs `exper` on
      the text before the first ')', which is shorter than `s`. */
  lemma {:induction false} FactorReturns(s: seq<char>, fuel: nat)
    requires fuel >= 3 * |s| + 1
    ensures Returns(Run(Grammar(), Factor(), s, fuel))
    decreases |s|, 0
  {
    FactorLaw(Grammar(), s, fuel);
    IntegerLaw(Grammar(), s, fuel);
    ConfixShape(Grammar(), '(', Ref("exper"), ')', s, fuel);
    if Run(Grammar(), IntP(), s, fuel).out.NoMatch? && |s| > 0 && s[0] == '(' {
      InteriorReturns(s, fuel);
    }
  }

  /** The interior of a parenthesised factor returns. */
  lemma {:induction false} InteriorReturns(s: seq<char>, fuel: nat)
    requires fuel >= 3 * |s| + 1 && |s| > 0
    ensures Returns(Run(Grammar(), Minus(Ref("exper"), ChP(')')), s[1..], fuel))
    decreases |s|, 0, 0
  {
    var t := s[1..];
    var u := t[..IndexOf(')', t)];
    PlainRun(Grammar(), Exclude(Ref("exper"), ChP(')')), t, fuel);
    ExcludeScan(Grammar(), Ref("exper"), ')', t, fuel);
    ExperRule(u, fuel);
    ExperReturns(u, fuel - 1);
  }

  // --------------------------------------------------------------- parse

  /** `ExpParser::parse(std::string_view&)` (ExpParser.cpp:53-56): run
      `exper` on the caller's view, advancing it by what `exper` consumed
      and recording the actions fired; the answer is whether it matched.
      The fuel is chosen from the view, and with it the run returns: the
      answer is false only when `exper` does not match or a numeral's
      conversion throws. */
  method Parse(view: View, log: Log) returns (ok: bool)
    modifies view, log
    ensures var r := Run(Grammar(), Exper(), old(view.rest), ExperFuel(old(view.rest)));
      Returns(r) && (ok <==> r.out.Match?) && view.rest == r.rest && log.events == old(log.events) + r.events
    ensures IsSuffix(view.rest, old(view.rest))
  {
    var fuel := ExperFuel(view.rest);
    ExperReturns(view.rest, fuel);
    var out := Exec(Grammar(), Exper(), view, log, fuel);
    ok := out.Match?;
  }
}
