/**
 * Laws of the primitive parsers of Parser.hpp: the literal `char` and
 * `std::string` parsers, the class parsers, `digit_p`, and the sign and
 * digit scans of `Parser<int>` (`int_p`) and `Parser<double>` (`float_p`).
 * Each consumes exactly the token it matched and leaves the view alone
 * when it does not match; `int_p` reads back what `Show` prints.
 */
module Tokens {
  import opened Parsers
  import opened Semantics

  // ------------------------------------------------------- single tokens

  /** `ch_p(c)`: matches exactly a leading `c` and consumes only it. */
  lemma CharLaw(env: Env, c: char, s: seq<char>, fuel: nat)
    ensures var r := Run(env, ChP(c), s, fuel);
      r.events == [] &&
      (r.out.Match? <==> |s| > 0 && s[0] == c) &&
      (r.out.Match? ==> r.out.v == Chr(c) && s == [c] + r.rest) &&
      (!r.out.Match? ==> r.out == NoMatch && r.rest == s)
  {
    if |s| > 0 && s[0] == c {
      assert s == [c] + s[1..];
    }
  }

  /** `str_p(t)`: matches exactly when `t` is a prefix of the view, and
      then consumes `t` and nothing else. */
  lemma LiteralLaw(env: Env, t: string, s: seq<char>, fuel: nat)
    ensures var r := Run(env, StrP(t), s, fuel);
      r.events == [] &&
      (r.out.Match? <==> |t| <= |s| && s[..|t|] == t) &&
      (r.out.Match? ==> r.out.v == Text(t) && s == t + r.rest) &&
      (!r.out.Match? ==> r.out == NoMatch && r.rest == s)
  {
    if |t| <= |s| && s[..|t|] == t {
      assert s == s[..|t|] + s[|t|..];
    }
  }

  /** The class parsers: match a leading char of the class, return it and
      consume only it. */
  lemma ClassLaw(env: Env, k: CharClass, s: seq<char>, fuel: nat)
    ensures var r := Run(env, Plain(Class(k)), s, fuel);
      r.events == [] &&
      (r.out.Match? <==> |s| > 0 && InClass(k, s[0])) &&
      (r.out.Match? ==> r.out.v == Chr(s[0]) && s == [s[0]] + r.rest) &&
      (!r.out.Match? ==> r.out == NoMatch && r.rest == s)
  {
    if |s| > 0 && InClass(k, s[0]) {
      assert s == [s[0]] + s[1..];
    }
  }

  /** `alphab_p` accepts 'a' and 'b' and nothing else. */
  lemma AlphaBOnlyAB(env: Env, s: seq<char>, fuel: nat)
    ensures Run(env, AlphaBP(), s, fuel).out.Match? <==> |s| > 0 && (s[0] == 'a' || s[0] == 'b')
  {
    ClassLaw(env, LowerAB, s, fuel);
  }

  /** `alnum_p` is `alpha_p` or a decimal digit. */
  lemma AlnumIsAlphaOrDigit(env: Env, s: seq<char>, fuel: nat)
    ensures Run(env, AlnumP(), s, fuel).out.Match? <==>
            Run(env, AlphaP(), s, fuel).out.Match? || Run(env, DigitP(), s, fuel).out.Match?
  {
    ClassLaw(env, Alnum, s, fuel);
    ClassLaw(env, Alpha, s, fuel);
  }

  /** `digit_p`: one leading decimal digit, as its value 0 to 9. */
  lemma DigitLaw(env: Env, s: seq<char>, fuel: nat)
    ensures var r := Run(env, DigitP(), s, fuel);
      r.events == [] &&
      (r.out.Match? <==> |s| > 0 && IsDigit(s[0])) &&
      (r.out.Match? ==> r.out.v.Int? && 0 <= r.out.v.n <= 9 && s[0] as int == '0' as int + r.out.v.n &&
                        r.rest == s[1..]) &&
      (!r.out.Match? ==> r.out == NoMatch && r.rest == s)
  {
  }

  // ------------------------------------------------------------- int_p

  /** `int_p` (Parser.hpp:323-354): an optional sign, then the longest run
      of digits; no match, and nothing consumed, exactly when nothing is
      collected (an empty view, a first char that is neither sign nor digit,
      or a '+' without a digit after it); a lone '-' is collected and makes
      the conversion throw after the sign was consumed. */
  lemma IntegerLaw(env: Env, s: seq<char>, fuel: nat)
    ensures var r := Run(env, IntP(), s, fuel);
      var k := SignLength(s);
      var n := DigitRun(s, k);
      r.events == [] &&
      (r.out.Match? ==> n > 0 && r.rest == s[k + n..] && (r.rest == [] || !IsDigit(r.rest[0])) &&
                        r.out.v == Int(Signed(s[0] == '-', DigitsValue(s[k..k + n])))) &&
      (r.out.NoMatch? <==> |s| == 0 || (s[0] != '+' && s[0] != '-' && !IsDigit(s[0])) ||
                           (s[0] == '+' && (|s| == 1 || !IsDigit(s[1])))) &&
      (r.out.NoMatch? ==> r.rest == s) &&
      (r.out.Fault? <==> |s| > 0 && s[0] == '-' && (|s| == 1 || !IsDigit(s[1]))) &&
      (r.out.Fault? ==> r.out.reason == BadNumber && r.rest == s[1..])
  {
  }

  /** The decimal numeral of a natural number, most significant digit first. */
  function Numeral(m: nat): (ds: seq<char>)
    ensures |ds| > 0
    ensures forall j :: 0 <= j < |ds| ==> IsDigit(ds[j])
  {
    if m < 10 then [('0' as int + m) as char]
    else Numeral(m / 10) + [('0' as int + m % 10) as char]
  }

  /** How an `int` is printed: a '-' for a negative number, then the
      numeral of its magnitude. */
  function Show(n: int): seq<char>
  {
    if n < 0 then ['-'] + Numeral(-n) else Numeral(n)
  }

  lemma {:induction false} NumeralValue(m: nat)
    ensures DigitsValue(Numeral(m)) == m
  {
    if m >= 10 {
      var ds := Numeral(m);
      NumeralValue(m / 10);
      assert ds[..|ds| - 1] == Numeral(m / 10);
    }
  }

  /** The digit run from `i` is any stretch of digits that ends at the end
      of the view or at a non-digit. */
  lemma DigitRunIs(s: seq<char>, i: nat, len: nat)
    requires i + len <= |s|
    requires forall j :: i <= j < i + len ==> IsDigit(s[j])
    requires i + len == |s| || !IsDigit(s[i + len])
    ensures DigitRun(s, i) == len
  {
  }

  /** Round trip: `int_p` reads back a printed integer, up to a following
      char that is not a digit, and consumes exactly the numeral. */
  lemma IntegerRoundTrip(env: Env, n: int, t: seq<char>, fuel: nat)
    requires t == [] || !IsDigit(t[0])
    ensures Run(env, IntP(), Show(n) + t, fuel) == Result(Match(Int(n)), t, [])
  {
    assert Run(env, IntP(), Show(n) + t, fuel) == IntegerScan(Show(n) + t);
    IntegerScanRoundTrip(n, t);
  }

  /** The same round trip for the lambda of `Parser<int>`. */
  lemma IntegerScanRoundTrip(n: int, t: seq<char>)
    requires t == [] || !IsDigit(t[0])
    ensures IntegerScan(Show(n) + t) == Result(Match(Int(n)), t, [])
  {
    var s := Show(n) + t;
    var m := if n < 0 then -n else n;
    var ds := Numeral(m);
    var k := if n < 0 then 1 else 0;
    assert s[k..k + |ds|] == ds;
    assert s[k + |ds|..] == t;
    DigitRunIs(s, k, |ds|);
    NumeralValue(m);
    assert IsDigit(ds[0]);
  }

  // ----------------------------------------------------------- float_p

  /** The lexeme the decimal scan takes from `i` is digits with at most one
      '.', and none at all when a '.' was already taken; it stops at the end
      of the view, or at a char that is neither a digit nor a first '.'. */
  lemma {:induction false} DecimalRunShape(s: seq<char>, i: nat, point: bool)
    requires i <= |s|
    ensures var n := DecimalRun(s, i, point);
      (forall j :: i <= j < i + n ==> IsDigit(s[j]) || s[j] == '.') &&
      (forall j, j' :: i <= j < j' < i + n && s[j] == '.' ==> s[j'] != '.') &&
      (point ==> forall j :: i <= j < i + n ==> s[j] != '.') &&
      (i + n == |s| ||
       !(IsDigit(s[i + n]) || (s[i + n] == '.' && !point && forall j :: i <= j < i + n ==> s[j] != '.')))
    decreases |s| - i
  {
    if i < |s| && (IsDigit(s[i]) || (s[i] == '.' && !point)) {
      DecimalRunShape(s, i + 1, point || s[i] == '.');
    }
  }

  /** What a call of `float_p` (Parser.hpp:248-285) on `s` that returned
      `r` promises, up to the conversion: the match carries an optional '-'
      and a run of digits with at most one '.', containing a digit, and
      stopping at the end of the view or at a char that is neither a digit
      nor a first '.'; a collected lexeme without a digit makes the
      conversion throw after it was consumed; nothing collected is no match
      with nothing consumed. */
  predicate DecimalShaped(s: seq<char>, r: Result)
  {
    var k := SignLength(s);
    var n := DecimalRun(s, k, false);
    var lexeme := (if |s| > 0 && s[0] == '-' then "-" else "") + s[k..k + n];
    r.events == [] &&
    (r.out.Match? ==> r.out.v == Real(lexeme) && HasDigit(lexeme) && r.rest == s[k + n..]) &&
    (r.out.Match? ==> forall j, j' :: 0 <= j < j' < |lexeme| && lexeme[j] == '.' ==> lexeme[j'] != '.') &&
    (r.out.NoMatch? <==> lexeme == []) &&
    (r.out.NoMatch? ==> r.rest == s) &&
    (r.out.Fault? <==> lexeme != [] && !HasDigit(lexeme)) &&
    (r.out.Fault? ==> r.out.reason == BadNumber && r.rest == s[k + n..]) &&
    (!r.out.NoMatch? ==>
       r.rest == [] || !(IsDigit(r.rest[0]) || (r.rest[0] == '.' && forall j :: 0 <= j < |lexeme| ==> lexeme[j] != '.')))
  }

  /** The lambda of `Parser<double>` keeps those promises. */
  lemma DecimalScanShaped(s: seq<char>)
    ensures DecimalShaped(s, DecimalScan(s))
  {
    if |s| > 0 {
      DecimalLexemeOneDot(s);
      DecimalLexemeStops(s);
    }
  }

  /** The collected lexeme holds at most one '.'. */
  lemma DecimalLexemeOneDot(s: seq<char>)
    requires |s| > 0
    ensures var k := SignLength(s);
      var n := DecimalRun(s, k, false);
      var lexeme := (if s[0] == '-' then "-" else "") + s[k..k + n];
      forall j, j' :: 0 <= j < j' < |lexeme| && lexeme[j] == '.' ==> lexeme[j'] != '.'
  {
    var k := SignLength(s);
    var n := DecimalRun(s, k, false);
    var sign: seq<char> := if s[0] == '-' then "-" else "";
    var lexeme := sign + s[k..k + n];
    DecimalRunShape(s, k, false);
    forall j, j' | 0 <= j < j' < |lexeme| && lexeme[j] == '.'
      ensures lexeme[j'] != '.'
    {
      assert j >= |sign|;
      assert lexeme[j] == s[k + (j - |sign|)];
      assert lexeme[j'] == s[k + (j' - |sign|)];
    }
  }

  /** Where the decimal scan stops, in terms of the collected lexeme: the
      end of the view, or a char that is neither a digit nor a '.' the
      lexeme has not yet got. */
  lemma DecimalLexemeStops(s: seq<char>)
    requires |s| > 0
    ensures var k := SignLength(s);
      var n := DecimalRun(s, k, false);
      var lexeme := (if s[0] == '-' then "-" else "") + s[k..k + n];
      k + n == |s| || !(IsDigit(s[k + n]) || (s[k + n] == '.' && forall j :: 0 <= j < |lexeme| ==> lexeme[j] != '.'))
  {
    var k := SignLength(s);
    var n := DecimalRun(s, k, false);
    var sign: seq<char> := if s[0] == '-' then "-" else "";
    var lexeme := sign + s[k..k + n];
    DecimalRunShape(s, k, false);
    if forall j :: 0 <= j < |lexeme| ==> lexeme[j] != '.' {
      forall j | k <= j < k + n
        ensures s[j] != '.'
      {
        assert lexeme[|sign| + (j - k)] == s[j];
      }
    }
  }

  /** `float_p` keeps them, whatever the rules and the fuel. */
  lemma DecimalLaw(env: Env, s: seq<char>, fuel: nat)
    ensures DecimalShaped(s, Run(env, FloatP(), s, fuel))
  {
    assert Run(env, FloatP(), s, fuel) == DecimalScan(s);
    DecimalScanShaped(s);
  }

  // ---------------------------------------- the digit loop as written

  /** The digit loop of `Parser<int>` as written (Parser.hpp:341): its
      guard tests the view for emptiness instead of bounding `index`, so
      once the digits run to the end of the view it reads `stream[index]`
      with `index` equal to the length.  `None` stands for that read. */
  function DigitLoopAsWritten(s: seq<char>, index: nat): (r: Option<nat>)
    requires index <= |s|
    ensures r.Some? ==> index <= r.value <= |s|
    decreases |s| - index
  {
    if |s| == 0 then Some(index)
    else if index == |s| then None
    else if IsDigit(s[index]) then DigitLoopAsWritten(s, index + 1)
    else Some(index)
  }

  /** Every non-empty view whose digits run to its end is read past its end. */
  lemma {:induction false} DigitLoopOverruns(s: seq<char>, index: nat)
    requires index <= |s| && |s| > 0
    requires forall j :: index <= j < |s| ==> IsDigit(s[j])
    ensures DigitLoopAsWritten(s, index) == None
    decreases |s| - index
  {
    if index < |s| {
      DigitLoopOverruns(s, index + 1);
    }
  }

  /** The smallest such input: "12". */
  lemma DigitLoopOverrunsOnTwelve()
    ensures DigitLoopAsWritten("12", 0) == None
  {
    DigitLoopOverruns("12", 0);
  }

  /** Where the run stops before the end, the loop as written agrees with
      the bounded loop the model uses. */
  lemma {:induction false} DigitLoopAgrees(s: seq<char>, index: nat)
    requires index <= |s| && index + DigitRun(s, index) < |s|
    ensures DigitLoopAsWritten(s, index) == Some(index + DigitRun(s, index))
    decreases |s| - index
  {
    if IsDigit(s[index]) {
      DigitLoopAgrees(s, index + 1);
    }
  }
}
