/**
 * The parser values of the combinator library (Parser.hpp), as a deep
 * embedding: a `Parser` is a `Form` (how it matches) together with the
 * action slots that `operator[]` fills in.  Parsers are immutable values
 * here because every combinator of the library captures its operands by
 * copy (`[=]`); the only indirection, `ref`, is the `Rule` form, resolved
 * against an environment when it runs (see semantics.dfy).
 */
module Parsers {

  datatype Option<T> = None | Some(value: T)

  /** What a successful match carries: the `T` of `std::optional<T>`, or
      `Flag` for the `Parser<bool>` convention.  `Real` keeps the scanned
      lexeme that `std::stod` would convert. */
  datatype Value =
    | Flag
    | Chr(c: char)
    | Text(text: string)
    | Int(n: int)
    | Real(lexeme: string)
    | Chars(chars: seq<char>)

  /** The C++ result type of a parser, which decides overloads. */
  datatype Kind = KFlag | KChar | KText | KInt | KReal | KChars

  /** The single-character classes: `anychar_p`, `alpha_p`, `alphaa_p`,
      `alphab_p`, `alnum_p` and the end-of-line class `eol_p` means. */
  datatype CharClass = AnyChar | Alpha | Upper | LowerAB | Alnum | EndOfLine

  /** An attached action: `Action<void>` or a value-taking `Action<T>`. */
  datatype Action = Void(tag: string) | Typed(tag: string)

  /** What an action receives when it fires. */
  datatype Arg = NoArg | IntArg(n: int) | RealArg(lexeme: string) | TextArg(text: string)

  /** One firing of an attached action: the event log stands in for the
      side effects of the bound callbacks. */
  datatype Event = Event(tag: string, arg: Arg)

  datatype Parser = Parser(form: Form, call: Option<string>, voidCall: Option<string>)

  datatype Form =
    | Char(c: char)                                   // Parser<char>(c), ch_p
    | Literal(literal: string)                        // Parser<std::string>(s), str_p
    | Class(k: CharClass)                             // the class parsers
    | Digit                                           // digit_p
    | Integer                                         // Parser<int>, int_p
    | Decimal                                         // Parser<double>, float_p
    | Sequence(first: Parser, second: Parser)         // a >> b
    | Choice(left: Parser, right: Parser)             // a | b
    | Attempt(attempted: Parser)                      // !p
    | Star(body: Parser)                              // *p
    | Plus(body: Parser)                              // +p
    | Until(terminator: Parser)                       // ~p
    | Exclude(content: Parser, stop: Parser)          // a - b
    | Span(open: Parser, close: Parser)               // pair(open, close)
    | Nested(open: Parser, exp: Parser, close: Parser) // pair(open, exp, close)
    | Repeat(times: nat, body: Parser)                // repeat(times, p)
    | Rule(name: string)                              // the address ref takes

  predicate IsDigit(c: char) { '0' <= c <= '9' }

  function DigitOf(c: char): int { c as int - '0' as int }

  predicate InClass(k: CharClass, c: char)
  {
    match k
    case AnyChar => true
    case Alpha => 'a' <= c <= 'z' || 'A' <= c <= 'Z'
    case Upper => 'A' <= c <= 'Z'
    case LowerAB => 'a' <= c <= 'b'
    case Alnum => 'a' <= c <= 'z' || 'A' <= c <= 'Z' || IsDigit(c)
    case EndOfLine => c == 10 as char || c == 13 as char
  }

  /** The result type C++ gives each form.  `*`, `+` and `repeat` over a
      `Parser<char>` select the overloads that collect the matched chars. */
  function KindOf(f: Form): Kind
  {
    match f
    case Char(_) => KChar
    case Class(_) => KChar
    case Literal(_) => KText
    case Until(_) => KText
    case Digit => KInt
    case Integer => KInt
    case Decimal => KReal
    case Star(q) => if KindOf(q.form) == KChar then KChars else KFlag
    case Plus(q) => if KindOf(q.form) == KChar then KChars else KFlag
    case Repeat(_, q) => if KindOf(q.form) == KChar then KChars else KFlag
    case Span(_, _) => KChars
    case _ => KFlag
  }

  predicate HasKind(v: Value, k: Kind)
  {
    match k
    case KFlag => v.Flag?
    case KChar => v.Chr?
    case KText => v.Text?
    case KInt => v.Int?
    case KReal => v.Real?
    case KChars => v.Chars?
  }

  /** The chars a char-collecting loop appends for one successful match. */
  function CharOf(v: Value): seq<char>
  {
    if v.Chr? then [v.c] else []
  }

  function Size(p: Parser): nat
  {
    1 + FormSize(p.form)
  }

  function FormSize(f: Form): nat
  {
    match f
    case Sequence(a, b) => Size(a) + Size(b) + 1
    case Choice(a, b) => Size(a) + Size(b) + 1
    case Attempt(q) => Size(q) + 1
    case Star(q) => Size(q) + 1
    case Plus(q) => Size(q) + 1
    case Until(q) => Size(q) + 1
    case Exclude(a, b) => Size(a) + Size(b) + 1
    case Span(o, c) => Size(o) + Size(c) + 1
    case Nested(o, e, c) => Size(o) + Size(e) + Size(c) + 1
    case Repeat(_, q) => Size(q) + 1
    case _ => 1
  }

  /** `operator[]`: overwrite the action slot in place.  On the
      `Parser<std::vector<char>>` forms an `Action<void>` goes to the
      separate `void_call` slot; everywhere else there is one slot. */
  function Attach(p: Parser, a: Action): (q: Parser)
    ensures q.form == p.form
    ensures KindOf(p.form) == KChars && a.Void? ==> q.voidCall == Some(a.tag) && q.call == p.call
    ensures !(KindOf(p.form) == KChars && a.Void?) ==> q.call == Some(a.tag) && q.voidCall == p.voidCall
  {
    if KindOf(p.form) == KChars && a.Void? then p.(voidCall := Some(a.tag))
    else p.(call := Some(a.tag))
  }

  /** The argument an action receives for a matched value. */
  function ArgOf(v: Value): Arg
  {
    match v
    case Int(n) => IntArg(n)
    case Real(l) => RealArg(l)
    case Chars(cs) => TextArg(cs)
    case _ => NoArg
  }

  /** What `operator()` fires after a successful match of `p` with value
      `v`: its action, once.  A `Parser<std::vector<char>>` prefers the
      string action and fires the `void_call` one only when there is none. */
  function Fire(p: Parser, v: Value): (e: seq<Event>)
    ensures |e| <= 1
  {
    if v.Chars? then
      if p.call.Some? then [Event(p.call.value, TextArg(v.chars))]
      else if p.voidCall.Some? then [Event(p.voidCall.value, NoArg)]
      else []
    else if p.call.Some? then [Event(p.call.value, ArgOf(v))]
    else []
  }

  // The builders of Parser.hpp.  Every one returns a parser with no action.

  function Plain(f: Form): Parser { Parser(f, None, None) }

  function ChP(c: char): Parser { Plain(Char(c)) }
  function StrP(s: string): Parser { Plain(Literal(s)) }
  function AnyCharP(): Parser { Plain(Class(AnyChar)) }
  function AlphaP(): Parser { Plain(Class(Alpha)) }
  function AlphaAP(): Parser { Plain(Class(Upper)) }
  function AlphaBP(): Parser { Plain(Class(LowerAB)) }
  function AlnumP(): Parser { Plain(Class(Alnum)) }
  function EolP(): Parser { Plain(Class(EndOfLine)) }
  function DigitP(): Parser { Plain(Digit) }
  function IntP(): Parser { Plain(Integer) }
  function FloatP(): Parser { Plain(Decimal) }

  function Then(a: Parser, b: Parser): Parser { Plain(Sequence(a, b)) }
  function Or(a: Parser, b: Parser): Parser { Plain(Choice(a, b)) }
  function Try(p: Parser): Parser { Plain(Attempt(p)) }
  function Many(p: Parser): Parser { Plain(Star(p)) }
  function Many1(p: Parser): Parser { Plain(Plus(p)) }
  function UpTo(p: Parser): Parser { Plain(Until(p)) }
  function Minus(a: Parser, b: Parser): Parser { Plain(Exclude(a, b)) }
  function Pair(open: Parser, close: Parser): Parser { Plain(Span(open, close)) }
  function PairWith(open: Parser, exp: Parser, close: Parser): Parser { Plain(Nested(open, exp, close)) }
  function Times(n: nat, p: Parser): Parser { Plain(Repeat(n, p)) }
  function Ref(name: string): Parser { Plain(Rule(name)) }

  /** confix_p(left, exp, right) is `left >> (exp - right) >> right`. */
  function ConfixP(left: Parser, exp: Parser, right: Parser): Parser
  {
    Then(Then(left, Minus(exp, right)), right)
  }

  /** list(value, sep) is `value >> *(sep >> value)`. */
  function ListP(value: Parser, sep: Parser): Parser
  {
    Then(value, Many(Then(sep, value)))
  }
}
