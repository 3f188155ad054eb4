/**
 * The command line's verdict over one run budget: a run past its budget is
 * never green, and says which budget stopped it.
 */
module RunVerdicts {
  import opened Ordering
  import opened Machine
  import opened WorkBudgets
  import opened WorkRuns

  datatype Outcome<+R> = Ok(value: R) | Err(message: string)

  /** The fixed parts of the message: the budget's name, what to do, and what introduces the error below. */
  datatype Wording = Wording(budget: string, advice: string, below: string)

  const WORDING: Wording := Wording(
    "exhausted its deterministic whole-run work budget",
    "; raise `--work-limit` for a project larger than the calibrated corpus",
    "\nthe error below is where the verifier stopped; it may be a consequence of the exhausted budget rather than a property of the proof\n")

  predicate OccursAt(text: string, part: string, i: nat) {
    i + |part| <= |text| && text[i..i + |part|] == part
  }

  predicate Contains(text: string, part: string) {
    exists i :: 0 <= i <= |text| && OccursAt(text, part, i)
  }

  function Decimal(n: nat): string {
    if n < 10 then ["0123456789"[n]] else Decimal(n / 10) + ["0123456789"[n % 10]]
  }

  function Numbers(used: USize, limit: USize): string {
    " after " + Decimal(used) + " units (" + Decimal(limit) + " limit)"
  }

  function Advice<R>(w: Wording, result: Outcome<R>): string {
    w.advice + if result.Ok? then "" else w.below
  }

  function Below<R>(result: Outcome<R>): string {
    if result.Ok? then "" else result.message
  }

  /** What follows the budget's name in the message of an exhausted run. */
  function AfterName<R>(w: Wording, result: Outcome<R>, used: USize, limit: USize): string {
    Numbers(used, limit) + (Advice(w, result) + Below(result))
  }

  /** A run past its budget fails, and its message says so first. */
  function ReportWorkExhaustion<R>(w: Wording, tool: string, result: Outcome<R>, exhausted: Option<(USize, USize)>): Outcome<R> {
    if exhausted.Some? && (result.Ok? || !Contains(result.message, w.budget)) then
      Err((tool + " ") + w.budget + AfterName(w, result, exhausted.value.0, exhausted.value.1))
    else result
  }

  /** One operation under a run budget; `stopped` is the containment notice when the wall clock ran out. */
  function WithRunLimits<R>(b: Budgets, tool: string, limit: USize, body: seq<Op>, result: Outcome<R>, stopped: Option<string>): Outcome<R> {
    Verdict(WORDING, tool, result, RunWorkExhaustion(Run(RunBegun(b, limit), body).after), stopped)
  }

  /** The containment notice comes first when the wall clock stopped a failing run; the budget's otherwise. */
  function Verdict<R>(w: Wording, tool: string, result: Outcome<R>, exhausted: Option<(USize, USize)>, stopped: Option<string>): Outcome<R> {
    if result.Err? && stopped.Some? then Err(tool + stopped.value + result.message)
    else ReportWorkExhaustion(w, tool, result, exhausted)
  }

  lemma Embedded(before: string, part: string, after: string)
    ensures Contains(before + part + after, part)
  {
    var text := before + part + after;
    assert text[|before|..|before| + |part|] == part;
    assert OccursAt(text, part, |before|);
  }

  lemma ReportNamesTheBudget<R>(w: Wording, tool: string, result: Outcome<R>, used: USize, limit: USize)
    ensures var r := ReportWorkExhaustion(w, tool, result, Some((used, limit)));
            r.Err? && Contains(r.message, w.budget)
  {
    Embedded(tool + " ", w.budget, AfterName(w, result, used, limit));
  }

  /** What a decimal numeral stands for. */
  function Reading(digits: string): nat {
    if digits == [] then 0 else 10 * Reading(digits[..|digits| - 1]) + DigitOf(digits[|digits| - 1])
  }

  function DigitOf(c: char): nat {
    if '0' <= c <= '9' then (c - '0') as nat else 0
  }

  lemma DigitReads(n: nat)
    requires n < 10
    ensures DigitOf("0123456789"[n]) == n
  {
  }

  lemma ReadingOn(digits: string, c: char)
    ensures Reading(digits + [c]) == 10 * Reading(digits) + DigitOf(c)
  {
    assert (digits + [c])[..|digits|] == digits;
  }

  lemma {:induction false} DecimalReads(n: nat)
    ensures Reading(Decimal(n)) == n
  {
    DigitReads(n % 10);
    var last := "0123456789"[n % 10];
    if n < 10 {
      ReadingOn([], last);
      assert [] + [last] == [last];
    } else {
      DecimalReads(n / 10);
      ReadingOn(Decimal(n / 10), last);
    }
  }

  /** `text` is `a`, a numeral that reads `used`, `b`, a numeral that reads `limit`, and `c`. */
  ghost predicate Tells(text: string, a: string, used: nat, b: string, limit: nat, c: string) {
    exists d, e :: Reading(d) == used && Reading(e) == limit && text == a + d + b + e + c
  }

  /** The message tells in numerals what was used and what was allowed. */
  lemma NumbersRead(used: USize, limit: USize)
    ensures Tells(Numbers(used, limit), " after ", used, " units (", limit, " limit)")
  {
    DecimalReads(used);
    DecimalReads(limit);
  }

  /** An exhausted run not reported yet tells what it used and what it was allowed, and ends in the advice or in what failed beside. */
  lemma ReportTellsAll<R>(w: Wording, tool: string, result: Outcome<R>, used: USize, limit: USize)
    requires result.Ok? || !Contains(result.message, w.budget)
    ensures var r := ReportWorkExhaustion(w, tool, result, Some((used, limit)));
            && r.Err?
            && Contains(r.message, Numbers(used, limit))
            && (result.Ok? ==> exists p: string :: r.message == p + w.advice)
            && (result.Err? ==> exists p: string :: r.message == p + w.below + result.message)
  {
    Within((tool + " ") + w.budget, Numbers(used, limit), Advice(w, result) + Below(result));
    var told := (tool + " ") + w.budget + Numbers(used, limit);
    var p := told + if result.Ok? then [] else w.advice;
    var rest := if result.Ok? then w.advice else w.below + result.message;
    assert Advice(w, result) + Below(result) == (if result.Ok? then [] else w.advice) + rest;
    assert (tool + " ") + w.budget + AfterName(w, result, used, limit) == p + rest;
    assert result.Err? ==> p + rest == p + w.below + result.message;
  }

  lemma Within(a: string, b: string, c: string)
    ensures Contains(a + (b + c), b)
  {
    assert a + (b + c) == a + b + c;
    Embedded(a, b, c);
  }

  /**
   * A run is green exactly when its operation was and it spent no more than
   * its budget; past the budget, and short of the wall clock, the message
   * names the budget.
   */
  lemma NeverGreenPastTheBudget<R>(b: Budgets, tool: string, limit: USize, body: seq<Op>, result: Outcome<R>, stopped: Option<string>)
    requires Marked(b.runs)
    ensures var spent := Capped(Total(Run(RunBegun(b, limit), body).notes));
            GreenWithin("exhausted its deterministic whole-run work budget", tool,
                        WithRunLimits(b, tool, limit, body, result, stopped), result, spent, limit, stopped)
  {
    ExhaustionIsExact(b, limit, body);
    VerdictIsGreenWithin(WORDING, tool, result, Capped(Total(Run(RunBegun(b, limit), body).notes)), limit, stopped);
  }

  /**
   * Green exactly within the budget, where the outcome is the operation's own; past it
   * the message names the budget; and a failing run the wall clock stopped says that first.
   */
  ghost predicate GreenWithin<R>(name: string, tool: string, outcome: Outcome<R>, result: Outcome<R>, spent: USize, limit: USize, stopped: Option<string>) {
    && (outcome.Ok? <==> result.Ok? && spent <= limit)
    && (spent <= limit && (result.Ok? || stopped == None) ==> outcome == result)
    && (spent > limit && (result.Ok? || stopped == None) ==> outcome.Err? && Contains(outcome.message, name))
    && (result.Err? && stopped.Some? ==> outcome == Err(tool + stopped.value + result.message))
  }

  lemma VerdictIsGreenWithin<R>(w: Wording, tool: string, result: Outcome<R>, spent: USize, limit: USize, stopped: Option<string>)
    ensures GreenWithin(w.budget, tool, Verdict(w, tool, result, if spent > limit then Some((spent, limit)) else None, stopped), result, spent, limit, stopped)
  {
    if spent > limit {
      ReportNamesTheBudget(w, tool, result, spent, limit);
    }
  }
}
