/** Token prices, and what is lost between the exact cost of a run and the cents its budget records. */
module Pricing {

  const MILLI_CENTS_FACTOR := 1000
  const MILLI_CENTS_PER_CENT := 1000

  /** Milli-cents per 1000 prompt and output tokens. */
  datatype Entry = Entry(promptCost: nat, outputCost: nat)

  datatype Usage = Usage(promptTokens: nat, completionTokens: nat)

  /** An attempt priced at some entry. */
  datatype Priced = Priced(entry: Entry, usage: Usage)

  /** The cost in milli-cents, each kind of token truncated on its own. */
  function Calculate(e: Entry, u: Usage): nat {
    u.promptTokens * e.promptCost / MILLI_CENTS_FACTOR + u.completionTokens * e.outputCost / MILLI_CENTS_FACTOR
  }

  /** The cents the retry budget adds for a response with this estimate. */
  function BudgetCents(milliCents: int): nat {
    if milliCents > 0 then milliCents / MILLI_CENTS_PER_CENT else 0
  }

  /** The exact cost in thousandths of a milli-cent. */
  function Exact(p: Priced): nat {
    p.usage.promptTokens * p.entry.promptCost + p.usage.completionTokens * p.entry.outputCost
  }

  function Recorded(p: Priced): nat { BudgetCents(Calculate(p.entry, p.usage)) }

  ghost function TotalExact(run: seq<Priced>): nat {
    if run == [] then 0 else TotalExact(run[..|run| - 1]) + Exact(run[|run| - 1])
  }

  ghost function TotalRecorded(run: seq<Priced>): nat {
    if run == [] then 0 else TotalRecorded(run[..|run| - 1]) + Recorded(run[|run| - 1])
  }

  /** The largest loss of one attempt, in thousandths of a milli-cent: 999 milli-cents below a cent and 0.999 milli-
      cents for each kind of token. */
  const MAX_LOSS := 1_000_998

  lemma TwoTruncations(x: nat, y: nat)
    ensures var cents := (x / 1000 + y / 1000) / 1000;
            0 <= x + y - 1_000_000 * cents <= MAX_LOSS
  {
    var q := x / 1000 + y / 1000;
    assert x + y - 1000 * q <= 1998;
    assert q - 1000 * (q / 1000) <= 999;
  }

  lemma AttemptLoss(p: Priced)
    ensures 0 <= Exact(p) - 1_000_000 * Recorded(p) <= MAX_LOSS
  {
    TwoTruncations(p.usage.promptTokens * p.entry.promptCost, p.usage.completionTokens * p.entry.outputCost);
  }

  /** Over n attempts the recorded cents never exceed the exact cost, and fall short of it by at most n times the
      largest loss, which is below 1001 milli-cents. */
  lemma {:induction false} RunLoss(run: seq<Priced>)
    ensures 0 <= TotalExact(run) - 1_000_000 * TotalRecorded(run) <= MAX_LOSS * |run|
    ensures run != [] ==> TotalExact(run) - 1_000_000 * TotalRecorded(run) < 1_001_000 * |run|
  {
    if run != [] {
      RunLoss(run[..|run| - 1]);
      AttemptLoss(run[|run| - 1]);
    }
  }

  /** The worst attempt: 1000.998 milli-cents of tokens, recorded as nothing. */
  const WORST := Priced(Entry(1, 1), Usage(999_999, 999))

  function Worst(n: nat): seq<Priced> {
    if n == 0 then [] else Worst(n - 1) + [WORST]
  }

  /** The loss bound is attained for every number of attempts, with nothing recorded at all. */
  lemma {:induction false} LossIsAttained(n: nat)
    ensures |Worst(n)| == n && TotalRecorded(Worst(n)) == 0 && TotalExact(Worst(n)) == MAX_LOSS * n
  {
    if n > 0 {
      LossIsAttained(n - 1);
      assert Worst(n)[..n - 1] == Worst(n - 1);
    }
  }
}
