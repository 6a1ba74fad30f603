# Parser combinators over a string view, and the expression grammar built with them

This project models the parser-combinator library of `Parser.hpp` and the
arithmetic-expression grammar of `ExpParser.cpp`, and proves what they do.

In the library a `Parser<T>` wraps a matching lambda. The lambda takes a
`std::string_view&`, advances it with `remove_prefix` and returns an
optional value. `operator()` then fires the parser's attached action once
when the lambda matched.

The combinators fall into two groups:

- sequence `>>`, exclusion `-` and both `pair`s work on a copy of the view
  and commit it only on success;
- choice `|`, `!`, `*`, `+`, `~` and `repeat` work on the caller's view
  directly. They can consume input and still fail.

That split is the point of the model.

The project is a deep embedding in seven modules:

- `Parsers`: the data model.
  - A `Form` datatype has one constructor per kind of lambda.
  - A `Parser` is a form plus its action slots. `call` and the separate
    `void_call` slot of `Parser<std::vector<char>>` are both modelled.
  - `Attach` is `operator[]`.
  - The builder functions are `ch_p`, `str_p`, `int_p`, `confix_p`,
    `list`, `ref` and the others.
- `Semantics`: the reference semantics. `Run(env, p, s, fuel)` returns a
  `Result` of three parts:
  - the outcome: `Match(value)`, `NoMatch`, or `Fault(reason)` for what
    the C++ would not return from;
  - the view left behind;
  - the actions fired, as events.
  
  A `ref` is a rule name resolved in `env` when it runs, and fuel is spent
  there.
- `Views`: every run leaves a suffix of the view it was given.
- `Tokens`: laws of the primitive parsers. `int_p` reads back what `Show`
  prints.
- `Machine`: an imperative interpreter.
  - It has a `View` class with `RemovePrefix`/`RemoveSuffix` and a `Log`
    class that collects the fired actions.
  - There is one method per lambda, with the C++ loops (`while`, index
    counters, the depth counter) as `while` loops with invariants.
  - Each method is proved to do exactly what the reference semantics says.
- `Laws`: the laws of each combinator. They cover:
  - the failure behaviour of each combinator;
  - the depth scan of `pair`;
  - the exclusion scan;
  - actions firing once;
  - the last attachment winning.
- `ExpParser`: the grammar `exper`/`term`/`factor`. Its `Importer` actions
  become the events `num(n)`, `add`, `sub`, `mul` and `div`. It has
  end-to-end lemmas on concrete inputs and `Parse`, the imperative entry
  point.

Two properties of the code shape the grammar. Both come from `*`
(Parser.hpp:565-575), which rejects an empty view only on entry:

- A level (`term` or `exper`) can match and leave an empty view. On
  "1+2*3" `exper` consumes everything (`SumOfProductConsumesAll`).
- So the parenthesised alternative of `factor` can match. On "(1+2*3)" it
  consumes the whole view (`ParenthesisedFactor`).

What a level cannot do is match when its first operand leaves nothing:
whenever a level matches, that operand left something
(`LevelNeedsLeftover`). On "1*2" `exper` fails although `term` consumed
everything (`ProductAloneFails`).

With fuel `3 * |s| + 3` the grammar never runs out of fuel on `s`: every
'(' that `factor` enters costs three units and one char
(`ExperReturns`). `Parse` chooses that fuel itself.

## Model

| member | source | states |
|---|---|---|
| Semantics.Run | Parser.hpp:21-29 | `operator()`: never consumes more than the view; a match carries a value of the parser's C++ type |
| Semantics.Step | Parser.hpp:21-29 | a lambda never consumes more than the view, and a match has the form's value type |
| Semantics.Primitive | Parser.hpp:100-162 | the primitive lambdas fire nothing and consume at most the view |
| Semantics.IntegerScan | Parser.hpp:323-354 | the `Parser<int>` lambda never consumes more than the view (its full behaviour is `Tokens.IntegerLaw`) |
| Semantics.DecimalScan | Parser.hpp:248-285 | the `Parser<double>` lambda never consumes more than the view (its full behaviour is `Tokens.DecimalLaw`) |
| Semantics.DigitRun | Parser.hpp:341-343 | the bounded digit run stays inside the view and covers only digits |
| Semantics.RunSequence | Parser.hpp:393-495 | `>>` has the `Parser<bool>` value and consumes at most the view |
| Semantics.RunChoice | Parser.hpp:501-546 | `\|` has the `Parser<bool>` value and consumes at most the view |
| Semantics.RunAttempt | Parser.hpp:550-563 | `!` has the `Parser<bool>` value and consumes at most the view |
| Semantics.StarLoop | Parser.hpp:577-581 | the loop of `*` never reports no match and consumes at most the view |
| Semantics.RunStar | Parser.hpp:565-605 | `*` consumes at most the view; its value is the collected chars or a flag |
| Semantics.RunPlus | Parser.hpp:607-669 | `+` consumes at most the view; its value is the collected chars or a flag |
| Semantics.ScanLoop | Parser.hpp:683-688 | the scan of `~` and `-` consumes at most the view and yields text |
| Semantics.RunUntil | Parser.hpp:671-698 | `~` consumes at most the view; a match is a `std::string` |
| Semantics.RunExclude | Parser.hpp:700-817 | `-` consumes at most the view; a match is a flag |
| Semantics.BalanceLoop | Parser.hpp:987-1002 | the depth scan consumes at most the view, and the last closer lies inside what it consumed |
| Semantics.RunSpan | Parser.hpp:971-1014 | two-argument `pair` consumes at most the view; a match is a char vector |
| Semantics.RunNested | Parser.hpp:1016-1107 | three-argument `pair` consumes at most the view; a match is a flag |
| Semantics.NestedAfterOpener | Parser.hpp:1043-1105 | after the opener, the depth scan and the interior run keep inside the view |
| Semantics.NestedEnd | Parser.hpp:1091-1101 | the events of the depth scan, then those of `exp`. It matches iff `exp` did not fault and left the interior empty, and faults iff `exp` faulted |
| Semantics.RepeatLoop | Parser.hpp:1120-1141 | the counted loop of `repeat` consumes at most the view; a match is a char vector |
| Semantics.RunRepeat | Parser.hpp:1109-1175 | `repeat` consumes at most the view; its value has the form's type |
| Semantics.RunRule | Parser.hpp:1178-1353 | a dereferenced `ref` consumes at most the view; a match is a flag |
| Semantics.TailIsDrop | Parser.hpp:683-688 | dropping one char `k` times, as the scan loops of `~` and `-` do with `remove_prefix(1)`, leaves the view without its first `k` chars |
| Semantics.SuffixTrans | Parser.hpp:393-413 | a suffix of a suffix of the view is a suffix of the view |
| Parsers.Attach | Parser.hpp:220-242 | `operator[]` keeps the lambda and overwrites only the slot the action type selects (`void_call` for `Action<void>` on a char-vector parser) |
| Parsers.Fire | Parser.hpp:203-217 | a matched call fires at most one action |
| Views.RunSuffix | Parser.hpp:21-29 | every parser only removes a prefix: the view left is a suffix of the view given |
| Views.StepSuffix | Parser.hpp:393-1353 | every lambda leaves a suffix of its view, by the same recursion as the semantics |
| Views.PrimitiveSuffix | Parser.hpp:100-162 | the primitive lambdas leave a suffix of the view |
| Views.SequenceSuffix | Parser.hpp:393-495 | `>>` leaves a suffix of the view |
| Views.ChoiceSuffix | Parser.hpp:501-546 | `\|` leaves a suffix of the view |
| Views.AttemptSuffix | Parser.hpp:550-563 | `!` leaves a suffix of the view |
| Views.StarLoopSuffix | Parser.hpp:577-581 | each turn of the `*` loop leaves a suffix of the view |
| Views.StarSuffix | Parser.hpp:565-605 | `*` leaves a suffix of the view |
| Views.PlusSuffix | Parser.hpp:607-669 | `+` leaves a suffix of the view |
| Views.ScanLoopSuffix | Parser.hpp:683-688 | the scan loop leaves a suffix of the view |
| Views.UntilSuffix | Parser.hpp:671-698 | `~` leaves a suffix of the view |
| Views.ExcludeSuffix | Parser.hpp:700-817 | `-` leaves a suffix of the view |
| Views.BalanceSuffix | Parser.hpp:987-1002 | the depth scan leaves a suffix of the view |
| Views.SpanSuffix | Parser.hpp:971-1014 | two-argument `pair` leaves a suffix of the view |
| Views.NestedSuffix | Parser.hpp:1016-1107 | three-argument `pair` leaves a suffix of the view |
| Views.RepeatLoopSuffix | Parser.hpp:1120-1141 | the `repeat` loop leaves a suffix of the view |
| Views.RepeatSuffix | Parser.hpp:1109-1175 | `repeat` leaves a suffix of the view |
| Views.RuleSuffix | Parser.hpp:1188-1353 | a dereferenced `ref` leaves a suffix of the view |
| Tokens.CharLaw | Parser.hpp:149-162 | `ch_p(c)` matches iff the view starts with `c`, consumes exactly that `c`, fires nothing, and leaves the view alone otherwise |
| Tokens.LiteralLaw | Parser.hpp:100-112 | `str_p(t)` matches iff `t` is a prefix of the view, then consumes exactly `t`; otherwise the view is unchanged |
| Tokens.ClassLaw | Parser.hpp:833-924 | a class parser matches iff the first char is in the class, returns and consumes only it |
| Tokens.AlphaBOnlyAB | Parser.hpp:888-904 | `alphab_p` accepts 'a' and 'b' and nothing else |
| Tokens.AlnumIsAlphaOrDigit | Parser.hpp:906-924 | `alnum_p` matches iff `alpha_p` or a decimal digit does |
| Tokens.DigitLaw | Parser.hpp:941-957 | `digit_p` matches iff the first char is a digit; its value is that digit, 0 to 9; it consumes one char |
| Tokens.IntegerLaw | Parser.hpp:323-354 | `int_p`: an optional sign, then the maximal digit run, whose value is the match. No match and nothing consumed iff nothing is collected (empty view, non-sign non-digit first, or '+' without digit). A lone '-' faults after consuming the sign |
| Tokens.Numeral | Parser.hpp:352 | the printed numeral is non-empty and all digits |
| Tokens.NumeralValue | Parser.hpp:352 | the digits of a printed number convert back to the number |
| Tokens.IntegerRoundTrip | Parser.hpp:323-354 | `int_p` on `Show(n)` followed by a non-digit matches `n` and consumes exactly the numeral |
| Tokens.IntegerScanRoundTrip | Parser.hpp:323-354 | the `Parser<int>` lambda on `Show(n)` followed by a non-digit matches `n` and consumes exactly the numeral |
| Tokens.DigitRunIs | Parser.hpp:341-343 | any digit stretch that ends at a non-digit or the end is the digit run |
| Tokens.DecimalRunShape | Parser.hpp:266-275 | the decimal scan takes digits with at most one '.', and stops at the end of the view or at a char that is neither a digit nor a first '.' |
| Tokens.DecimalLexemeOneDot | Parser.hpp:266-275 | the collected lexeme, sign included, holds at most one '.' |
| Tokens.DecimalLexemeStops | Parser.hpp:266-275 | the scan stops at the end of the view, or at a char that is neither a digit nor a '.' the lexeme lacks |
| Tokens.DecimalScanShaped | Parser.hpp:248-285 | the `Parser<double>` lambda keeps every promise of `DecimalLaw` |
| Tokens.DecimalLaw | Parser.hpp:248-285 | `float_p` matches an optional '-' and digits with at most one '.', containing a digit, and consumes exactly that lexeme. A lexeme without a digit faults after it was consumed. Nothing collected is no match with the view unchanged. After a match or a fault the view starts neither with a digit nor, when the lexeme has no '.', with a '.' |
| Tokens.DigitLoopAsWritten | Parser.hpp:341 | the digit loop as written stays within the view, or reads past its end (`None`) |
| Tokens.DigitLoopOverruns | Parser.hpp:341 | every non-empty view whose digits run to its end is read past its end |
| Tokens.DigitLoopOverrunsOnTwelve | Parser.hpp:341 | "12" is such a view |
| Tokens.DigitLoopAgrees | Parser.hpp:341-343 | where the run stops before the end, the loop as written and the bounded loop agree |
| Machine.View.constructor | Parser.hpp:399 | a fresh view over a string holds exactly that string (the C++ `stream_copy`) |
| Machine.View.RemovePrefix | Parser.hpp:103-106 | `remove_prefix(n)` drops exactly the first `n` chars, leaving a suffix |
| Machine.View.RemoveSuffix | Parser.hpp:1088-1090 | `remove_suffix(n)` drops exactly the last `n` chars |
| Machine.Log.Emit | Parser.hpp:24-27 | firing appends exactly the events given |
| Machine.Exec | Parser.hpp:21-29 | `operator()`: the lambda, then the action once on a match. Result, view and events are exactly those of `Run` |
| Machine.ExecForm | Parser.hpp:21-29 | the dispatch to each lambda does exactly what `Step` says |
| Machine.ExecPrimitive | Parser.hpp:100-162 | the char, literal, class and digit lambdas do exactly what `Primitive` says |
| Machine.Stoi | Parser.hpp:352 | `std::stoi` on the buffer yields an `int` |
| Machine.Stod | Parser.hpp:283 | `std::stod` keeps the lexeme and throws iff the buffer has no digit |
| Machine.ExecInteger | Parser.hpp:323-354 | the `Parser<int>` lambda, with its index loop, does exactly what `IntegerScan` says |
| Machine.CollectDigits | Parser.hpp:341-343 | the index loop ends after the digit run and appends exactly those digits to the buffer |
| Machine.IntegerCollected | Parser.hpp:345-353 | what the loop collected converts to the scan's result; nothing collected is no match |
| Machine.ExecDecimal | Parser.hpp:248-285 | the `Parser<double>` lambda, with its index loop, does exactly what `DecimalScan` says |
| Machine.CollectDecimal | Parser.hpp:266-275 | the index loop ends after the decimal run and appends exactly it |
| Machine.DecimalCollected | Parser.hpp:276-283 | what the loop collected converts to the scan's result |
| Machine.ExecSequence | Parser.hpp:393-413 | `>>` on a copy of the view does exactly what `RunSequence` says |
| Machine.ExecChoice | Parser.hpp:501-509 | `\|` on the caller's view does exactly what `RunChoice` says |
| Machine.ExecAttempt | Parser.hpp:550-563 | `!` does exactly what `RunAttempt` says |
| Machine.ExecLoop | Parser.hpp:577-581 | the `while (parser(stream))` loop does exactly what `StarLoop` says, stopping with `Diverges` where C++ would spin |
| Machine.ExecStar | Parser.hpp:565-605 | `*` does exactly what `RunStar` says |
| Machine.ExecPlus | Parser.hpp:607-669 | `+` does exactly what `RunPlus` says |
| Machine.ExecScan | Parser.hpp:683-688 | the scan loop of `~` and `-` does exactly what `ScanLoop` says |
| Machine.ExecUntil | Parser.hpp:671-698 | `~` does exactly what `RunUntil` says |
| Machine.ExecExclude | Parser.hpp:700-738 | `-` on a copy of the view does exactly what `RunExclude` says |
| Machine.ExecBalance | Parser.hpp:987-1002 | the `pari_count` loop does exactly what `BalanceLoop` says |
| Machine.ExecSpan | Parser.hpp:971-1014 | two-argument `pair` does exactly what `RunSpan` says |
| Machine.ExecNested | Parser.hpp:1016-1107 | three-argument `pair` does exactly what `RunNested` says |
| Machine.ExecNestedBody | Parser.hpp:1043-1105 | after the opener, the depth scan and the interior run do exactly what `NestedAfterOpener` says |
| Machine.ExecNestedEnd | Parser.hpp:1091-1101 | the caller's view advances over the span only when the interior run left nothing, as `NestedEnd` says |
| Machine.ExecInterior | Parser.hpp:1088-1092 | cutting the interior out of a fresh view and running `exp` on it is `Run` on the span without the opener and the last closer |
| Machine.Interior | Parser.hpp:1088-1090 | the interior cut from the whole input is the text after the opener up to the last closer |
| Machine.ExecRepeat | Parser.hpp:1109-1175 | `repeat`'s counted loop does exactly what `RunRepeat` says |
| Machine.ExecRule | Parser.hpp:1188-1353 | a `ref` operand is dereferenced when it runs, as `RunRule` says |
| Laws.ClassRun | Parser.hpp:587-605 | the longest class prefix stays in the view, is all in the class, and stops at a non-class char |
| Laws.IndexOf | Parser.hpp:711-719 | the first `c` is at the result, or there is none. No earlier char is a `c` |
| Laws.IndexOfAt | Parser.hpp:711-719 | a `c` with no `c` before it is the first one |
| Laws.PlainRun | Parser.hpp:823-831 | a parser straight from a builder does what its lambda does and fires nothing more |
| Laws.ThenLaw | Parser.hpp:393-495 | `a >> b` matches iff both match in turn. On failure the view is unchanged though the events that ran are kept. On success it consumes `a`'s then `b`'s consumption |
| Laws.ThenIs | Parser.hpp:393-413 | `a >> b` unfolded: run `a`, then `b` on what `a` left, commit only if both matched |
| Laws.ThenAssoc | Parser.hpp:393-495 | `>>` is associative in outcome, view and events |
| Laws.OrLaw | Parser.hpp:501-546 | `a \| b` is left-biased and short-circuit. `b` runs on the view as `a` left it, and the choice matches iff `a` or `b` does |
| Laws.ChoiceSeesLeftover | Parser.hpp:501-509 | `~ch_p('x') \| ch_p('y')` matches "xy" though neither operand matches it |
| Laws.TryLaw | Parser.hpp:550-563 | `!p` fails on an empty view; otherwise it keeps what `p` consumed and matches either way |
| Laws.StarLaw | Parser.hpp:565-605 | `*p` fails on an empty view and never reports no match otherwise |
| Laws.StarIs | Parser.hpp:571-581 | `*p` on a non-empty view is its loop from an empty buffer |
| Laws.StarLoopStep | Parser.hpp:577-581 | the first failure ends the loop as a match with its consumption kept. A consuming match goes round again. A non-consuming match is `Diverges` |
| Laws.StarLoopClass | Parser.hpp:587-605 | the collecting loop over a class parser takes exactly the longest class prefix, in order |
| Laws.StarLoopClassStep | Parser.hpp:596-602 | one turn of the collecting loop over a class parser |
| Laws.StarClass | Parser.hpp:587-605 | collecting `*` over a class parser returns the longest class prefix, in order, and consumes exactly it |
| Laws.PlusLaw | Parser.hpp:607-669 | `+p` fails on an empty view or a failing first attempt, keeping that attempt's consumption. After a consuming first match it behaves as `*p` |
| Laws.ScanChar | Parser.hpp:683-688 | the scan for `c` yields the text before the first `c` and consumes that `c` too |
| Laws.ScanCharStep | Parser.hpp:683-688 | one turn of the scan moves one char into the text |
| Laws.TextShift | Parser.hpp:683-688 | the text before the first `c` grows one char per turn |
| Laws.UntilLaw | Parser.hpp:671-698 | `~p` fails on an empty view. When `p` matches at once it fails but keeps `p`'s consumption |
| Laws.UntilChar | Parser.hpp:671-698 | `~ch_p(c)` returns the text before the first `c` and consumes that `c`. A leading `c` is consumed and reported as no match |
| Laws.ExcludeLaw | Parser.hpp:700-738 | `a - b` works on a copy: on failure the view is unchanged, and an empty view always fails |
| Laws.ExcludeChar | Parser.hpp:700-738 | `a - ch_p(c)` runs `a` on the text before the first `c` alone. It matches iff that text is non-empty and `a` matches, and then consumes exactly what `a` consumed |
| Laws.ExcludeScan | Parser.hpp:711-736 | the lambda of `a - ch_p(c)`: no match on no text before the first `c`; otherwise `a` runs on that text alone, and on a match the view advances by what `a` consumed |
| Laws.ExcludeCharScan | Parser.hpp:711-719 | the scanning loop of `- ch_p(c)` stops at the first `c`, with no events |
| Laws.PrefixRest | Parser.hpp:727-731 | what `a` left of the scanned prefix, followed by the rest of the view, is the view advanced by `a`'s consumption |
| Laws.SpanLaw | Parser.hpp:971-1014 | two-argument `pair` fails on an empty view and leaves the view unchanged on failure. On success `open` matched at the front and the value is exactly the consumed span |
| Laws.DepthCons | Parser.hpp:987-1002 | the depth after a longer prefix adds the next char's change |
| Laws.ShiftCloses | Parser.hpp:987-1002 | closing after the first char is closing from the depth that char leaves |
| Laws.ShiftNever | Parser.hpp:987-1002 | never closing after the first char is never closing from the depth that char leaves |
| Laws.NeverClosesEmpty | Parser.hpp:988-1011 | on an exhausted view with depth left the scan fails without closing |
| Laws.ClosesAtOnce | Parser.hpp:990-993 | a closer that brings the depth to 0 ends the scan there |
| Laws.ShiftBalance | Parser.hpp:987-1002 | what the scan ends in after the first char is what it ends in from the start |
| Laws.BalanceChars | Parser.hpp:987-1002 | with `ch_p` opener and closer the scan never faults. It matches, right after a `q`, exactly at the first point the depth reaches 0, and fails iff it never does |
| Laws.BalanceCharsStep | Parser.hpp:987-1002 | one turn: a `q` closes and is the last closer, a `p` opens, anything else is skipped |
| Laws.BalanceClose | Parser.hpp:990-993 | the closer is tried first and lowers the depth |
| Laws.BalanceSkip | Parser.hpp:994-1001 | a non-closer opens or is skipped |
| Laws.SpanChars | Parser.hpp:971-1014 | `pair(ch_p(p), ch_p(q))` matches iff the view starts with `p` and the depth later reaches 0. The value is the span to the first such point. Nothing else is consumed and no event fires |
| Laws.SpanShape | Parser.hpp:971-1014 | two-argument `pair` over chars unfolded: opener, then the scan from depth 1 |
| Laws.SpanSplit | Parser.hpp:1005-1007 | the view is the returned span followed by what the scan left |
| Laws.NestedLaw | Parser.hpp:1016-1107 | three-argument `pair` fails on an empty view and leaves the view unchanged on failure. On success the two-argument `pair` matches too, leaving the same view |
| Laws.NestedChars | Parser.hpp:1016-1107 | `pair(ch_p(p), exp, ch_p(q))` finds the span `pair(ch_p(p), ch_p(q))` finds and runs `exp` on it without its first and last char. It matches iff `exp` leaves that interior empty, then consumes the span; `exp`'s events are kept either way |
| Laws.NestedShape | Parser.hpp:1016-1107 | three-argument `pair` over chars unfolded: opener, scan, interior |
| Laws.AfterOpenerChars | Parser.hpp:1043-1105 | after the opener either the scan fails and so does the whole, or `exp` runs on the span's interior |
| Laws.InteriorSlice | Parser.hpp:1088-1090 | the interior is the span without its first and last char |
| Laws.NestedEmptyInterior | Parser.hpp:1016-1107 | an empty interior matches whatever `exp` is |
| Laws.RepeatLoopClass | Parser.hpp:1145-1175 | `repeat`'s loop over a class parser takes the leading class chars up to the count and matches only with all of them |
| Laws.RepeatLoopClassStep | Parser.hpp:1157-1164 | one attempt of `repeat` over a class parser |
| Laws.ClassTakenStep | Parser.hpp:1157-1164 | the count of taken class chars drops by one per attempt |
| Laws.ClassTakenTake | Parser.hpp:1157-1164 | a taken class char moves from the view into the value |
| Laws.TakeShift | Parser.hpp:1157-1164 | taking one more char extends the taken prefix by one |
| Laws.RepeatClass | Parser.hpp:1109-1175 | `repeat(n, p)` never rolls back: over a class parser it consumes up to `n` leading class chars and matches only with `n` of them |
| Laws.RefLaw | Parser.hpp:1178-1182 | `ref` is looked up when it runs. An unbound name and exhausted fuel consume nothing. Otherwise view and events are the rule's, and it matches iff the rule does, with a flag |
| Laws.AttachFires | Parser.hpp:21-29 | the outcome and view are the lambda's; the action fires exactly once after a match and never after a failure |
| Laws.LastAttachWins | Parser.hpp:31-41 | attaching twice to one slot is attaching the second action only |
| Laws.StringActionFirst | Parser.hpp:203-217 | on a char-vector parser the string action takes precedence over the no-argument one, whichever was attached first |
| Laws.TrailingStar | Parser.hpp:565-575 | a sequence ending in `*q` fails whenever its first part leaves nothing |
| Laws.ListFailsOnFullValue | Parser.hpp:965-969 | `list(value, sep)` fails when `value` consumes the whole view |
| Laws.ConfixChar | Parser.hpp:959-963 | `confix_p(ch_p(l), exp, ch_p(r))` matches iff the view is `l`, then a non-empty `r`-free text that `exp` consumes entirely, then `r`. It then consumes through that `r`; otherwise the view is unchanged. It faults iff `exp` faults, and fires `exp`'s events on that text |
| Laws.ConfixShape | Parser.hpp:959-963 | `confix_p` over chars unfolded: `l`, the exclusion, `r` |
| Laws.CloserAfter | Parser.hpp:959-963 | what `exp` left of the text, followed by the rest, starts with `r` iff `exp` left nothing and there is an `r` |
| ExpParser.ExperRule | ExpParser.cpp:44-45 | a `ref` to `exper` runs `exper` with one unit of fuel less |
| ExpParser.TermRule | ExpParser.cpp:47-48 | a `ref` to `term` runs `term` with one unit of fuel less |
| ExpParser.FactorRule | ExpParser.cpp:50 | a `ref` to `factor` runs `factor` with one unit of fuel less |
| ExpParser.FactorLaw | ExpParser.cpp:50 | `factor` tries `int_p` first: an integer is consumed and fires `num(value)`; the parenthesised alternative runs only when `int_p` does not match, on the view as it was |
| ExpParser.NumIs | ExpParser.cpp:50 | `int_p()[num]` fires `num` with the value on a match and nothing otherwise |
| ExpParser.FactorNum | ExpParser.cpp:50 | a printed integer at the front is one factor firing `num(n)` |
| ExpParser.FactorNone | ExpParser.cpp:50 | a view starting with no digit, sign or '(' holds no factor; nothing consumed or fired |
| ExpParser.OperatorIs | ExpParser.cpp:44-48 | an operator alternative fires its action after the operand's events, and fails with the view unchanged |
| ExpParser.AlternativesMiss | ExpParser.cpp:44-48 | with no operator at the front the alternatives fail, consuming and firing nothing |
| ExpParser.AlternativesHit | ExpParser.cpp:44-48 | an operator at the front runs its operand and fires its tag after it |
| ExpParser.LoopStops | ExpParser.cpp:44-48 | a level's `*` loop stops as a match at a non-operator |
| ExpParser.LoopTurns | ExpParser.cpp:44-48 | one loop turn at an operator: a matching operand goes round again, a failing one ends the loop as a match keeping its events, a faulting one ends it with that fault |
| ExpParser.LoopNone | ExpParser.cpp:44-48 | on a view with no operator at its front the loop matches and consumes nothing |
| ExpParser.LoopOnce | ExpParser.cpp:44-48 | the loop over exactly one operator and operand |
| ExpParser.LoopBroken | ExpParser.cpp:44-48 | a failing first operand leaves the loop a match that consumed nothing but kept the operand's events |
| ExpParser.LevelLaw | ExpParser.cpp:44-48 | a level fails unchanged when its operand fails, or when the operand consumed everything; otherwise its loop decides |
| ExpParser.LevelNeedsLeftover | ExpParser.cpp:44-48 | whenever a level matches, its first operand left something |
| ExpParser.LevelThen | ExpParser.cpp:44-48 | operand then matching loop: the level matches with both event lists in order |
| ExpParser.LevelEmpty | ExpParser.cpp:44-48 | an operand that consumes everything makes the level fail |
| ExpParser.FactorRefNum | ExpParser.cpp:47-50 | `ref(factor)` over a printed integer |
| ExpParser.TermOfNum | ExpParser.cpp:47-48 | `term` over one integer followed by a non-operator |
| ExpParser.TermOfLastNum | ExpParser.cpp:47-48 | `term` over an integer that ends the view fails |
| ExpParser.TermOfProduct | ExpParser.cpp:47-48 | `term` over `m*n` fires num m, num n, mul |
| ExpParser.ProductTail | ExpParser.cpp:47-48 | the loop of `term` over one `*` and an integer |
| ExpParser.TermRefNum | ExpParser.cpp:44-48 | `ref(term)` over one integer |
| ExpParser.TermRefLastNum | ExpParser.cpp:44-48 | `ref(term)` over an integer that ends the view fails |
| ExpParser.TermRefProduct | ExpParser.cpp:44-48 | `ref(term)` over a product |
| ExpParser.SumOfProduct | ExpParser.cpp:44-48 | on "1+2*3 " `exper` leaves " " and fires num 1, num 2, num 3, mul, add |
| ExpParser.SumOfProductConsumesAll | ExpParser.cpp:44-48 | on "1+2*3" `exper` matches and consumes everything |
| ExpParser.SumOfProductThen | ExpParser.cpp:44-48 | "1+2*3" followed by a non-operator: the operator events follow both operands |
| ExpParser.SumTail | ExpParser.cpp:44-45 | the loop of `exper` over "+2*3" |
| ExpParser.ProductAloneFails | ExpParser.cpp:44-48 | on "1*2" `exper` fails with the view unchanged although `term` fired num 1, num 2, mul |
| ExpParser.ParenthesisedFactor | ExpParser.cpp:50 | on "(1+2*3)" the parenthesised factor matches and consumes the whole view |
| ExpParser.InteriorOfSum | ExpParser.cpp:50 | the text of "(1+2*3)" before its first ')' is "1+2*3" |
| ExpParser.ParenthesisedRuns | ExpParser.cpp:50 | on a view starting with '(' `factor` is its parenthesised alternative |
| ExpParser.BrokenSum | ExpParser.cpp:44-48 | on "4+7" `exper` matches only "4", leaves "+7" and fires num 4, num 7 |
| ExpParser.BrokenSumTail | ExpParser.cpp:44-45 | the loop of `exper` over "+7" matches nothing and keeps num 7 |
| ExpParser.ParenthesisedFactorFails | ExpParser.cpp:50 | on "(4+7) " `factor` fails, consuming nothing, after firing num 4 and num 7 |
| ExpParser.FactorOfParenthesised | ExpParser.cpp:50 | on '(' with a later ')', `factor` matches through that ')' iff `exper` consumes all the text before it; otherwise it fails with the view unchanged, keeping `exper`'s events |
| ExpParser.InteriorOfBrokenSum | ExpParser.cpp:50 | the text of "(4+7) " before its first ')' is "4+7" |
| ExpParser.TermOfNoFactor | ExpParser.cpp:47-48 | a failing `factor` makes `term` fail the same way, with the view unchanged |
| ExpParser.ExperOfNoTerm | ExpParser.cpp:44-45 | a failing `term` makes `exper` fail the same way, with the view unchanged |
| ExpParser.ParenthesisedSumFails | ExpParser.cpp:44-50 | `exper` on "(4+7) " fails, consuming nothing, keeping num 4 and num 7 |
| ExpParser.LeadingBlankFails | ExpParser.cpp:44-50 | on " 12 + 24 * 4 - 7 * 8 " `exper` fails with nothing consumed or fired |
| ExpParser.ExperOfNum | ExpParser.cpp:44-48 | `exper` over one integer followed by a non-operator |
| ExpParser.BlankEndsExpression | ExpParser.cpp:44-50 | on "12 + 24 * ( 4 + 7 ) / 8" `exper` consumes only "12" and fires only num 12 |
| ExpParser.TwelveThen | ExpParser.cpp:44-50 | the printed 12 followed by the rest is the input |
| ExpParser.LevelReturns | ExpParser.cpp:44-48 | a level completes when its operand does and, if that operand leaves something, its loop does |
| ExpParser.ManyReturns | ExpParser.cpp:44-48 | `*` completes when its loop from an empty buffer does |
| ExpParser.ExperReturns | ExpParser.cpp:44-45 | with fuel `3 * \|s\| + 3`, `exper` on `s` never runs out of fuel, reaches no unbound rule and never spins; the only fault left is a numeral's conversion |
| ExpParser.SumLoopReturns | ExpParser.cpp:44-45 | the loop of `exper` completes on any view within its fuel |
| ExpParser.TermReturns | ExpParser.cpp:47-48 | with fuel `3 * \|s\| + 2`, `term` on `s` completes |
| ExpParser.ProductLoopReturns | ExpParser.cpp:47-48 | the loop of `term` completes on any view within its fuel |
| ExpParser.FactorReturns | ExpParser.cpp:50 | with fuel `3 * \|s\| + 1`, `factor` on `s` completes: `int_p` faults only in its conversion, and the parenthesised `exper` runs on a shorter text |
| ExpParser.InteriorReturns | ExpParser.cpp:50 | `exper` on the text before the first ')' completes |
| ExpParser.Parse | ExpParser.cpp:53-56 | `parse(std::string_view&)` returns whether `exper` matched, advances the caller's view by exactly what `exper` consumed, and records its events. With the fuel it chooses the run completes: false means no match or a throwing conversion |

## Left out

- Numeric conversion (Parser.hpp:283, 352). Out-of-range `std::stoi` and floating point are not modelled. An `int` is unbounded. A `double` is kept as its lexeme. Only the throw on a lone '-' or a lexeme without a digit is modelled, as `Fault(BadNumber)`.
- `Action.hpp` is not part of this model. Actions are event tags; `std::function` type erasure, copy constructors and overload resolution are not modelled.
- Static initialisation order (ExpParser.cpp:44-50). The three rules are definitions in declaration order, and `std::ref(term)` is converted to `const Parser<bool>&` by the `>>` overloads at Parser.hpp:438-457 and 479-495. Their `[=]` lambdas copy the referenced parser (the copy constructor at Parser.hpp:16-17). So `exper` holds a copy of `term` taken before `term` is built, and `term` a copy of `factor` taken before line 50 runs: calling `exper` as written calls a `std::function` copied from storage not yet constructed. At line 50 `confix_p` cannot deduce `Parser<B>` from a `std::reference_wrapper`. The model resolves each rule by name when it runs, as the library's `ref` (Parser.hpp:1178-1182) is meant to. Every `ExpParser` lemma describes the grammar as intended, not the program as compiled.
- Constructs that do not compile as written are modelled by their evident intent:
  - the `steam` typo in generic `+` (Parser.hpp:613);
  - same-type `|` and the `|` overloads on a `Parser<T>*` operand that wrap a bool lambda back into `Parser<T>` (Parser.hpp:512-526, 1321-1353);
  - `eol_p` returning a choice as `Parser<char>` (Parser.hpp:926-929), modelled as a class parser for '\n' and '\r';
  - the three-argument `pair` testing `C` instead of `A` for its opener (Parser.hpp:1028).
- Non-termination. A loop over a parser that matches without consuming (`*!p`, Parser.hpp:577-581) spins forever in C++; the model stops it with `Fault(Diverges)` instead.
- Recursion depth. A left-recursive grammar does not terminate in C++; the model spends one unit of fuel per `ref` and reports `Fault(OutOfFuel)` when it runs out. The concrete grammar lemmas assume enough fuel; for `exper`, `ExperReturns` proves that `3 * |s| + 3` is enough.
- `main.cpp` is a demo driver and `ExpParser.hpp` holds declarations only; neither is modelled. Their example inputs appear as lemmas.
- The `std::ifstream` overload of `parse` (ExpParser.cpp:58-65) is I/O and is not modelled.
- The `std::cout` bodies of the `Importer` methods (ExpParser.cpp:11-34) are output only; each call becomes an event.
- ExpParser.Parse: returns false where C++ would throw from `std::stoi`, because the model turns the throw into `Fault(BadNumber)`; `Returns` shows that no other fault is left.
- Laws.NestedEmptyInterior: requires that `exp` does not fault on the empty view, because a fault propagates.
- Laws.AttachFires: excludes a no-argument action attached to a char-vector parser that already has a string action, because that case is `StringActionFirst`.

## Findings

| source | as written | input that shows it | evidently intended | confidence | as-written member | corrected member |
|---|---|---|---|---|---|---|
| Parser.hpp:341 | the digit loop of `Parser<int>` is guarded by `!stream.empty()`, which never changes inside the loop, so once the digits reach the end of the view it reads `stream[index]` with `index == stream.length()` | "12" (any view whose digits run to its end) | bound the loop by `index < stream.length()`, as `Parser<double>` does at Parser.hpp:267 | not executed | Tokens.DigitLoopAsWritten, Tokens.DigitLoopOverrunsOnTwelve | Machine.CollectDigits, Tokens.DigitLoopAgrees |
