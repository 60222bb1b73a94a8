/**
 * Extraction of the retired (over-budget) queues from a frontier report
 * (`RetiredQueuesFilter.process`): the lines of a full report are read in order of spent
 * budget, and the over-budget ones are copied into a new in-memory report until it holds
 * more than the configured maximum number of lines.
 */
module RetiredQueues {
  import opened Basics

  /** One frontier queue: its name, its total budget and what it has spent of it (Java `long`s). */
  datatype FrontierReportLine = FrontierReportLine(domainName: string, totalBudget: int, totalSpend: int)

  /**
   * The report handed to `process`: only a full report can be iterated by spent budget; any other
   * kind makes the cast fail. `bySpentBudget` is the order `iterateOnSpentBudget` yields the lines in.
   */
  datatype FrontierReport =
    | FullFrontierReport(jobName: string, bySpentBudget: seq<FrontierReportLine>)
    | OtherFrontierReport(jobName: string)

  /**
   * `isOverBudget`: a queue without a budget (a negative one) is never retired; a queue with a
   * budget is retired exactly when it has spent all of it, so a retired queue has spent a
   * non-negative amount.
   */
  function IsOverBudget(l: FrontierReportLine): (retired: bool)
    ensures l.totalBudget < 0 ==> !retired
    ensures l.totalBudget >= 0 ==> (retired <==> l.totalSpend >= l.totalBudget)
    ensures retired ==> l.totalSpend >= 0
  {
    l.totalBudget >= 0 && l.totalSpend >= l.totalBudget
  }

  /** The over-budget lines, in their order. */
  function OverBudgetLines(lines: seq<FrontierReportLine>): (r: seq<FrontierReportLine>)
    ensures |r| <= |lines|
    ensures forall i :: 0 <= i < |r| ==> IsOverBudget(r[i])
  {
    if lines == [] then []
    else OverBudgetLines(lines[..|lines| - 1]) + (if IsOverBudget(lines[|lines| - 1]) then [lines[|lines| - 1]] else [])
  }

  /** How many lines the loop guard `addedLines <= maxSize` lets through: `maxSize + 1`, or none. */
  function Admitted(maxSize: int32): nat {
    if maxSize < 0 then 0 else maxSize as int + 1
  }

  /** The lines of the result of `process`: the first `Admitted(maxSize)` over-budget lines. */
  function RetiredLines(lines: seq<FrontierReportLine>, maxSize: int32): seq<FrontierReportLine> {
    var over := OverBudgetLines(lines);
    if |over| <= Admitted(maxSize) then over else over[..Admitted(maxSize)]
  }

  /** `InMemoryFrontierReport`, as far as `process` uses it: a job name and the lines added so far. */
  class InMemoryFrontierReport {
    const jobName: string
    var lines: seq<FrontierReportLine>

    constructor(jobName: string)
      ensures this.jobName == jobName && lines == []
    {
      this.jobName := jobName;
      lines := [];
    }

    /** `addLine`: the line is added after those already there. */
    method AddLine(line: FrontierReportLine)
      modifies this
      ensures lines == old(lines) + [line]
    {
      lines := lines + [line];
    }
  }

  /**
   * `process`: a new report with the input's job name holding the retired queues, or `None` when
   * the input is not a full report (the `ClassCastException`).
   */
  method Process(initialFrontier: FrontierReport, maxSize: int32) returns (r: Option<InMemoryFrontierReport>)
    ensures r.Some? <==> initialFrontier.FullFrontierReport?
    ensures r.Some? ==> r.value.jobName == initialFrontier.jobName
    ensures r.Some? ==> r.value.lines == RetiredLines(initialFrontier.bySpentBudget, maxSize)
  {
    var result := new InMemoryFrontierReport(initialFrontier.jobName);
    if !initialFrontier.FullFrontierReport? {
      return None;
    }
    var iter := initialFrontier.bySpentBudget;
    var next := 0;
    var addedLines := 0;
    while addedLines <= maxSize && next < |iter|
      invariant 0 <= next <= |iter|
      invariant 0 <= addedLines <= Admitted(maxSize)
      invariant result.lines == OverBudgetLines(iter[..next]) && |result.lines| == addedLines
      invariant result.jobName == initialFrontier.jobName
    {
      var l := iter[next];
      assert iter[..next + 1][..next] == iter[..next];
      next := next + 1;
      if IsOverBudget(l) {
        result.AddLine(l);
        addedLines := addedLines + 1;
      }
    }
    OverBudgetSplit(iter[..next], iter[next..]);
    assert iter[..next] + iter[next..] == iter;
    return Some(result);
  }

  /** Filtering a concatenation filters each part: the filter keeps the relative order of lines. */
  lemma {:induction false} OverBudgetSplit(a: seq<FrontierReportLine>, b: seq<FrontierReportLine>)
    ensures OverBudgetLines(a + b) == OverBudgetLines(a) + OverBudgetLines(b)
    decreases |b|
  {
    if b == [] {
      assert a + b == a;
    } else {
      var b' := b[..|b| - 1];
      assert (a + b)[..|a + b| - 1] == a + b';
      OverBudgetSplit(a, b');
    }
  }

  /** A line is among the over-budget lines exactly when it is an input line that is over budget. */
  lemma {:induction false} OverBudgetMembership(lines: seq<FrontierReportLine>, l: FrontierReportLine)
    ensures l in OverBudgetLines(lines) <==> l in lines && IsOverBudget(l)
  {
    if lines != [] {
      var init := lines[..|lines| - 1];
      OverBudgetMembership(init, l);
      assert lines == init + [lines[|lines| - 1]];
    }
  }

  /**
   * The result: every line is an over-budget input line; it takes the over-budget lines from the
   * front, in order; and it holds `Admitted(maxSize)` of them, or all of them when there are fewer.
   */
  lemma RetiredLinesProperties(lines: seq<FrontierReportLine>, maxSize: int32)
    ensures var r := RetiredLines(lines, maxSize);
      && (forall l :: l in r ==> l in lines && IsOverBudget(l))
      && r <= OverBudgetLines(lines)
      && |r| == if |OverBudgetLines(lines)| <= Admitted(maxSize) then |OverBudgetLines(lines)| else Admitted(maxSize)
  {
    var r := RetiredLines(lines, maxSize);
    forall l | l in r
      ensures l in lines && IsOverBudget(l)
    {
      OverBudgetMembership(lines, l);
    }
  }

  /**
   * The guard compares before counting, so a report with enough over-budget lines yields one line
   * more than the maximum size; a negative maximum yields none.
   */
  lemma ProcessAdmitsOneMore(lines: seq<FrontierReportLine>, maxSize: int32)
    requires |OverBudgetLines(lines)| > maxSize as int
    ensures maxSize >= 0 ==> |RetiredLines(lines, maxSize)| == maxSize as int + 1
    ensures maxSize < 0 ==> RetiredLines(lines, maxSize) == []
  {
  }

  /** Budget-less queues (a negative budget) are never retired, however much they have spent. */
  lemma NoBudgetNeverRetired(lines: seq<FrontierReportLine>, maxSize: int32, l: FrontierReportLine)
    requires l.totalBudget < 0
    ensures l !in RetiredLines(lines, maxSize)
  {
    RetiredLinesProperties(lines, maxSize);
  }
}
