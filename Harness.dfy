/** The row loop of `run_tests`: walk the CSV rows in order, run the validator
    once per case, keep four counters, write one log per case and append one
    report row per case; afterwards compute the pass rate.

    The validator is not run here. `outcomes[k]` is what the k-th validator
    call (the one for the k-th case that is not skipped) produced; the log
    directory is a map from path to file contents. */
module Harness {
  import opened Text
  import opened Cases

  /** `total_tests`, `passed_tests`, `failed_tests`, `timeout_tests`. */
  datatype Tally = Tally(total: nat, passed: nat, failed: nat, timedOut: nat)

  /** The `Some` values of `f` over `xs`, in order: the cases of a CSV file
      when `f` reads one row. */
  function FilterMap<A, B>(xs: seq<A>, f: A -> Option<B>): (ys: seq<B>)
    ensures |ys| <= |xs|
  {
    if xs == [] then []
    else
      var prior := FilterMap(xs[..|xs| - 1], f);
      match f(xs[|xs| - 1])
      case None => prior
      case Some(y) => prior + [y]
  }

  /** The positions where `f` yields a value. */
  function Kept<A, B>(xs: seq<A>, f: A -> Option<B>): set<nat> {
    set i: nat | i < |xs| && f(xs[i]).Some?
  }

  /** One more element adds its value, if any, at the end. */
  lemma FilterMapSnoc<A, B>(xs: seq<A>, x: A, f: A -> Option<B>)
    ensures FilterMap(xs + [x], f) == FilterMap(xs, f) + if f(x).Some? then [f(x).value] else []
  {
    assert (xs + [x])[..|xs|] == xs;
  }

  /** `FilterMap` distributes over concatenation, so it keeps the order of
      its input. */
  lemma {:induction false} FilterMapAppend<A, B>(xs: seq<A>, ys: seq<A>, f: A -> Option<B>)
    ensures FilterMap(xs + ys, f) == FilterMap(xs, f) + FilterMap(ys, f)
  {
    if ys == [] {
      assert xs + ys == xs;
    } else {
      var n := |ys| - 1;
      FilterMapAppend(xs, ys[..n], f);
      assert xs + ys == (xs + ys[..n]) + [ys[n]];
      assert ys == ys[..n] + [ys[n]];
      FilterMapSnoc(xs + ys[..n], ys[n], f);
      FilterMapSnoc(ys[..n], ys[n], f);
    }
  }

  /** There are as many values as positions where `f` yields one. */
  lemma {:induction false} FilterMapCount<A, B>(xs: seq<A>, f: A -> Option<B>)
    ensures |FilterMap(xs, f)| == |Kept(xs, f)|
  {
    if xs != [] {
      var n := |xs| - 1;
      var front := xs[..n];
      FilterMapCount(front, f);
      assert forall i :: 0 <= i < n ==> front[i] == xs[i];
      if f(xs[n]).Some? {
        assert Kept(xs, f) == Kept(front, f) + {n};
      } else {
        assert Kept(xs, f) == Kept(front, f);
      }
    }
  }

  /** The cases the rows describe, in row order. */
  function CasesOf(rows: seq<seq<string>>): (cases: seq<TestCase>)
    ensures |cases| <= |rows|
  {
    FilterMap(rows, ParseRow)
  }

  /** The positions of the rows that are not skipped. */
  function KeptRows(rows: seq<seq<string>>): set<nat> {
    set i: nat | i < |rows| && !IsSkipped(rows[i])
  }

  /** There are as many cases as rows that are not skipped. */
  lemma CasesCountKeptRows(rows: seq<seq<string>>)
    ensures |CasesOf(rows)| == |KeptRows(rows)|
  {
    FilterMapCount(rows, ParseRow);
    assert Kept(rows, ParseRow) == KeptRows(rows);
  }

  /** Reading rows is compositional: the cases of a concatenation are the
      cases of the first part followed by those of the second, so cases keep
      the order of their rows. */
  lemma CasesOfAppend(a: seq<seq<string>>, b: seq<seq<string>>)
    ensures CasesOf(a + b) == CasesOf(a) + CasesOf(b)
  {
    FilterMapAppend(a, b, ParseRow);
  }

  /** A single row yields its parsed case, or nothing when it is skipped. */
  lemma CasesOfOneRow(row: seq<string>)
    ensures CasesOf([row]) == if IsSkipped(row) then [] else [ParseRow(row).value]
  {
    FilterMapSnoc([], row, ParseRow);
    assert [] + [row] == [row];
  }

  /** The status of each validator run, in order. */
  function Statuses(outcomes: seq<Outcome>): (ss: seq<Status>)
    ensures |ss| == |outcomes|
  {
    if outcomes == [] then []
    else
      var n := |outcomes| - 1;
      Statuses(outcomes[..n]) + [Classify(outcomes[n]).status]
  }

  lemma {:induction false} StatusesAt(outcomes: seq<Outcome>, k: nat)
    requires k < |outcomes|
    ensures Statuses(outcomes)[k] == Classify(outcomes[k]).status
  {
    var n := |outcomes| - 1;
    if k < n {
      StatusesAt(outcomes[..n], k);
    }
  }

  /** One case's effect on the counters: the total and exactly the counter of
      its status go up by one. */
  function Step(t: Tally, s: Status): (t': Tally)
    ensures t'.total == t.total + 1
    ensures t'.passed == t.passed + (if s == Pass then 1 else 0)
    ensures t'.failed == t.failed + (if s == Fail then 1 else 0)
    ensures t'.timedOut == t.timedOut + (if s == Timeout then 1 else 0)
  {
    match s
    case Pass => t.(total := t.total + 1, passed := t.passed + 1)
    case Fail => t.(total := t.total + 1, failed := t.failed + 1)
    case Timeout => t.(total := t.total + 1, timedOut := t.timedOut + 1)
  }

  /** The counters after the given statuses, one step per case. */
  function TallyOf(ss: seq<Status>): (t: Tally)
    ensures t.total == |ss|
    ensures t.passed + t.failed + t.timedOut == t.total
  {
    if ss == [] then Tally(0, 0, 0, 0) else Step(TallyOf(ss[..|ss| - 1]), ss[|ss| - 1])
  }

  /** Each counter is the number of cases with its status. */
  lemma {:induction false} TallyCountsStatuses(ss: seq<Status>)
    ensures TallyOf(ss) == Tally(|ss|, multiset(ss)[Pass], multiset(ss)[Fail], multiset(ss)[Timeout])
  {
    if ss != [] {
      var n := |ss| - 1;
      TallyCountsStatuses(ss[..n]);
      assert ss == ss[..n] + [ss[n]];
      assert multiset(ss) == multiset(ss[..n]) + multiset{ss[n]};
    }
  }

  /** Every case passed exactly when the pass counter reaches the total. */
  lemma {:induction false} AllPassedIff(ss: seq<Status>)
    ensures TallyOf(ss).passed == |ss| <==> forall k :: 0 <= k < |ss| ==> ss[k] == Pass
  {
    if ss != [] {
      var n := |ss| - 1;
      AllPassedIff(ss[..n]);
      assert forall k :: 0 <= k < n ==> ss[..n][k] == ss[k];
      if ss[n] != Pass {
        assert TallyOf(ss).passed <= n;
      }
    }
  }

  /** The report table: one row per case, appended in case order. */
  function Report(logDir: string, cases: seq<TestCase>, outcomes: seq<Outcome>): (rows: seq<ReportRow>)
    requires |cases| == |outcomes|
    ensures |rows| == |cases|
  {
    if cases == [] then []
    else
      var n := |cases| - 1;
      Report(logDir, cases[..n], outcomes[..n]) + [MakeRow(logDir, cases[n], outcomes[n])]
  }

  /** Row k of the table describes case k and its outcome. */
  lemma {:induction false} ReportAt(logDir: string, cases: seq<TestCase>, outcomes: seq<Outcome>, k: nat)
    requires |cases| == |outcomes| && k < |cases|
    ensures Report(logDir, cases, outcomes)[k] == MakeRow(logDir, cases[k], outcomes[k])
  {
    var n := |cases| - 1;
    var prior := Report(logDir, cases[..n], outcomes[..n]);
    var last := MakeRow(logDir, cases[n], outcomes[n]);
    assert Report(logDir, cases, outcomes) == prior + [last];
    if k < n {
      ReportAt(logDir, cases[..n], outcomes[..n], k);
      assert cases[..n][k] == cases[k] && outcomes[..n][k] == outcomes[k];
    } else {
      assert (prior + [last])[k] == last;
    }
  }

  /** The statuses shown in the table are the ones the counters count, so the
      summary can be recomputed from the table. */
  lemma ReportAgreesWithTally(logDir: string, cases: seq<TestCase>, outcomes: seq<Outcome>, k: nat)
    requires |cases| == |outcomes| && k < |cases|
    ensures Report(logDir, cases, outcomes)[k].status == Statuses(outcomes)[k]
  {
    ReportAt(logDir, cases, outcomes, k);
    StatusesAt(outcomes, k);
  }

  /** The log directory plays no part in a row apart from its link, so two
      runs over the same rows with the same validator behaviour give the same
      table up to the links. */
  lemma ReportIgnoresLogDir(d1: string, d2: string, cases: seq<TestCase>, outcomes: seq<Outcome>, k: nat)
    requires |cases| == |outcomes| && k < |cases|
    ensures Report(d1, cases, outcomes)[k].(logLink := "") == Report(d2, cases, outcomes)[k].(logLink := "")
  {
    ReportAt(d1, cases, outcomes, k);
    ReportAt(d2, cases, outcomes, k);
  }

  /** The files on disk after a series of writes in `"w"` mode to a
      directory that already holds `existing`: each write replaces whatever
      was at its path before, and every other file stays as it was. */
  function Overwrite(existing: map<string, string>, writes: seq<(string, string)>): (files: map<string, string>)
    ensures writes != [] ==> writes[|writes| - 1].0 in files && files[writes[|writes| - 1].0] == writes[|writes| - 1].1
  {
    if writes == [] then existing
    else
      var n := |writes| - 1;
      Overwrite(existing, writes[..n])[writes[n].0 := writes[n].1]
  }

  /** Exactly the files that were there and the written paths exist
      afterwards. */
  lemma {:induction false} OverwriteKeys(existing: map<string, string>, writes: seq<(string, string)>)
    ensures Overwrite(existing, writes).Keys == existing.Keys + set k | 0 <= k < |writes| :: writes[k].0
  {
    var written := set k | 0 <= k < |writes| :: writes[k].0;
    if writes != [] {
      var n := |writes| - 1;
      var prev := Overwrite(existing, writes[..n]);
      OverwriteKeys(existing, writes[..n]);
      assert writes[..n] + [writes[n]] == writes;
      assert written == (set k | 0 <= k < n :: writes[..n][k].0) + {writes[n].0} by {
        forall p | p in written
          ensures p == writes[n].0 || exists k :: 0 <= k < n && writes[..n][k].0 == p
        {
          var k :| 0 <= k < |writes| && writes[k].0 == p;
          if k < n {
            assert writes[..n][k].0 == p;
          }
        }
      }
    }
  }

  /** There are no more files afterwards than there were before plus one per
      write. */
  lemma {:induction false} OverwriteSize(existing: map<string, string>, writes: seq<(string, string)>)
    ensures |Overwrite(existing, writes)| <= |existing| + |writes|
  {
    if writes != [] {
      var n := |writes| - 1;
      OverwriteSize(existing, writes[..n]);
    }
  }

  /** A path holds what was last written to it. */
  lemma {:induction false} OverwriteLastWriter(existing: map<string, string>, writes: seq<(string, string)>, k: nat)
    requires k < |writes|
    requires forall j :: k < j < |writes| ==> writes[j].0 != writes[k].0
    ensures writes[k].0 in Overwrite(existing, writes) && Overwrite(existing, writes)[writes[k].0] == writes[k].1
  {
    var n := |writes| - 1;
    if k < n {
      assert writes[..n][k] == writes[k];
      OverwriteLastWriter(existing, writes[..n], k);
    }
  }

  /** A file that no write touches keeps what it held before. */
  lemma {:induction false} OverwriteKeepsUntouched(existing: map<string, string>, writes: seq<(string, string)>, p: string)
    requires p in existing
    requires forall k :: 0 <= k < |writes| ==> writes[k].0 != p
    ensures p in Overwrite(existing, writes) && Overwrite(existing, writes)[p] == existing[p]
  {
    if writes != [] {
      var n := |writes| - 1;
      assert forall k :: 0 <= k < n ==> writes[..n][k] == writes[k];
      OverwriteKeepsUntouched(existing, writes[..n], p);
    }
  }

  /** The writes the loop makes to the log directory: one per case, to the
      case's log path, in case order. */
  function LogWrites(logDir: string, cases: seq<TestCase>, outcomes: seq<Outcome>): (ws: seq<(string, string)>)
    requires |cases| == |outcomes|
    ensures |ws| == |cases|
  {
    if cases == [] then []
    else
      var n := |cases| - 1;
      LogWrites(logDir, cases[..n], outcomes[..n]) + [(LogPath(logDir, cases[n]), LogText(cases[n], outcomes[n]))]
  }

  lemma {:induction false} LogWritesAt(logDir: string, cases: seq<TestCase>, outcomes: seq<Outcome>, k: nat)
    requires |cases| == |outcomes| && k < |cases|
    ensures LogWrites(logDir, cases, outcomes)[k] == (LogPath(logDir, cases[k]), LogText(cases[k], outcomes[k]))
  {
    var n := |cases| - 1;
    var prior := LogWrites(logDir, cases[..n], outcomes[..n]);
    var last := (LogPath(logDir, cases[n]), LogText(cases[n], outcomes[n]));
    assert LogWrites(logDir, cases, outcomes) == prior + [last];
    if k < n {
      LogWritesAt(logDir, cases[..n], outcomes[..n], k);
      assert cases[..n][k] == cases[k] && outcomes[..n][k] == outcomes[k];
    } else {
      assert (prior + [last])[k] == last;
    }
  }

  /** Every case leaves a log under its path, the files that were there
      stay, and nothing else appears. */
  lemma LogsAreTheCasesLogs(logDir: string, existing: map<string, string>, cases: seq<TestCase>, outcomes: seq<Outcome>)
    requires |cases| == |outcomes|
    ensures forall k :: 0 <= k < |cases| ==> LogPath(logDir, cases[k]) in Overwrite(existing, LogWrites(logDir, cases, outcomes))
    ensures forall p :: p in existing ==> p in Overwrite(existing, LogWrites(logDir, cases, outcomes))
    ensures forall p :: p in Overwrite(existing, LogWrites(logDir, cases, outcomes)) ==>
      p in existing || exists k :: 0 <= k < |cases| && LogPath(logDir, cases[k]) == p
  {
    var ws := LogWrites(logDir, cases, outcomes);
    OverwriteKeys(existing, ws);
    forall k | 0 <= k < |cases|
      ensures LogPath(logDir, cases[k]) in Overwrite(existing, ws)
    {
      LogWritesAt(logDir, cases, outcomes, k);
      assert ws[k].0 in Overwrite(existing, ws).Keys;
    }
    forall p | p in Overwrite(existing, ws) && p !in existing
      ensures exists k :: 0 <= k < |cases| && LogPath(logDir, cases[k]) == p
    {
      assert p in Overwrite(existing, ws).Keys;
      var k :| 0 <= k < |ws| && ws[k].0 == p;
      LogWritesAt(logDir, cases, outcomes, k);
    }
  }

  /** A file already in the log directory that is no case's log path keeps
      its contents. */
  lemma OtherFilesSurvive(logDir: string, existing: map<string, string>, cases: seq<TestCase>, outcomes: seq<Outcome>, p: string)
    requires |cases| == |outcomes| && p in existing
    requires forall k :: 0 <= k < |cases| ==> LogPath(logDir, cases[k]) != p
    ensures var logs := Overwrite(existing, LogWrites(logDir, cases, outcomes));
      p in logs && logs[p] == existing[p]
  {
    var ws := LogWrites(logDir, cases, outcomes);
    forall k | 0 <= k < |ws|
      ensures ws[k].0 != p
    {
      LogWritesAt(logDir, cases, outcomes, k);
    }
    OverwriteKeepsUntouched(existing, ws, p);
  }

  /** A case's log holds its own header, output and notice unless a later case
      writes to the same path (two rows with the same scenario name share a
      log file and the later one wins). Paths are compared as text. */
  lemma LastWriterKeepsItsLog(logDir: string, existing: map<string, string>, cases: seq<TestCase>, outcomes: seq<Outcome>, k: nat)
    requires |cases| == |outcomes| && k < |cases|
    requires forall j :: k < j < |cases| ==> LogPath(logDir, cases[j]) != LogPath(logDir, cases[k])
    ensures var logs := Overwrite(existing, LogWrites(logDir, cases, outcomes));
      LogPath(logDir, cases[k]) in logs && logs[LogPath(logDir, cases[k])] == LogText(cases[k], outcomes[k])
  {
    var ws := LogWrites(logDir, cases, outcomes);
    forall j | 0 <= j < |ws|
      ensures ws[j] == (LogPath(logDir, cases[j]), LogText(cases[j], outcomes[j]))
    {
      LogWritesAt(logDir, cases, outcomes, j);
    }
    OverwriteLastWriter(existing, ws, k);
  }

  /** `passed / total * 100`, guarded so that no case means a rate of 0. */
  function PassRate(passed: nat, total: nat): (r: real)
    ensures total == 0 ==> r == 0.0
    ensures passed <= total ==> 0.0 <= r <= 100.0
    ensures total > 0 ==> (r == 100.0 <==> passed == total)
    ensures r == 0.0 <==> passed == 0 || total == 0
  {
    if total > 0 then
      var q := (passed as real) / (total as real);
      assert q * (total as real) == passed as real;
      q * 100.0
    else 0.0
  }

  /** The rate is 100 exactly when at least one case ran and all of them
      passed, and 0 exactly when none passed. */
  lemma PassRateExtremes(ss: seq<Status>)
    ensures var t := TallyOf(ss);
      PassRate(t.passed, t.total) == 100.0 <==> ss != [] && forall k :: 0 <= k < |ss| ==> ss[k] == Pass
    ensures var t := TallyOf(ss);
      PassRate(t.passed, t.total) == 0.0 <==> forall k :: 0 <= k < |ss| ==> ss[k] != Pass
  {
    AllPassedIff(ss);
    TallyCountsStatuses(ss);
    if forall k :: 0 <= k < |ss| ==> ss[k] != Pass {
      assert Pass !in multiset(ss);
    } else {
      var k :| 0 <= k < |ss| && ss[k] == Pass;
      assert Pass in multiset(ss);
    }
  }

  /** The cases of one more row. */
  lemma CasesOfPrefixStep(rows: seq<seq<string>>, i: nat)
    requires i < |rows|
    ensures CasesOf(rows[..i + 1])
      == CasesOf(rows[..i]) + if IsSkipped(rows[i]) then [] else [ParseRow(rows[i]).value]
  {
    assert rows[..i + 1] == rows[..i] + [rows[i]];
    FilterMapSnoc(rows[..i], rows[i], ParseRow);
  }

  lemma CasesOfPrefixBound(rows: seq<seq<string>>, i: nat)
    requires i <= |rows|
    ensures |CasesOf(rows[..i])| <= |CasesOf(rows)|
  {
    assert rows[..i] + rows[i..] == rows;
    FilterMapAppend(rows[..i], rows[i..], ParseRow);
  }

  lemma TallySnoc(outcomes: seq<Outcome>, o: Outcome)
    ensures TallyOf(Statuses(outcomes + [o])) == Step(TallyOf(Statuses(outcomes)), Classify(o).status)
  {
    assert (outcomes + [o])[..|outcomes|] == outcomes;
    assert (Statuses(outcomes) + [Classify(o).status])[..|outcomes|] == Statuses(outcomes);
  }

  lemma ReportSnoc(logDir: string, cases: seq<TestCase>, outcomes: seq<Outcome>, tc: TestCase, o: Outcome)
    requires |cases| == |outcomes|
    ensures Report(logDir, cases + [tc], outcomes + [o]) == Report(logDir, cases, outcomes) + [MakeRow(logDir, tc, o)]
  {
    assert (cases + [tc])[..|cases|] == cases;
    assert (outcomes + [o])[..|cases|] == outcomes;
  }

  lemma LogsSnoc(logDir: string, existing: map<string, string>, cases: seq<TestCase>, outcomes: seq<Outcome>, tc: TestCase, o: Outcome)
    requires |cases| == |outcomes|
    ensures Overwrite(existing, LogWrites(logDir, cases + [tc], outcomes + [o]))
      == Overwrite(existing, LogWrites(logDir, cases, outcomes))[LogPath(logDir, tc) := LogText(tc, o)]
  {
    assert (cases + [tc])[..|cases|] == cases;
    assert (outcomes + [o])[..|cases|] == outcomes;
    var ws := LogWrites(logDir, cases + [tc], outcomes + [o]);
    assert ws[..|cases|] == LogWrites(logDir, cases, outcomes);
  }

  /** What one more row does to the specification of the loop's state: a
      skipped row changes nothing, any other row adds its case, one step of
      the counters and one report row. */
  lemma RowStep(rows: seq<seq<string>>, outcomes: seq<Outcome>, logDir: string, i: nat)
    requires i < |rows| && |outcomes| == |CasesOf(rows)|
    ensures |CasesOf(rows[..i + 1])| <= |outcomes|
    ensures IsSkipped(rows[i]) ==> CasesOf(rows[..i + 1]) == CasesOf(rows[..i])
    ensures var n := |CasesOf(rows[..i])|;
      !IsSkipped(rows[i]) ==>
        n < |outcomes| &&
        var tc, o := ParseRow(rows[i]).value, outcomes[n];
        && CasesOf(rows[..i + 1]) == CasesOf(rows[..i]) + [tc]
        && TallyOf(Statuses(outcomes[..n + 1])) == Step(TallyOf(Statuses(outcomes[..n])), Classify(o).status)
        && Report(logDir, CasesOf(rows[..i + 1]), outcomes[..n + 1])
           == Report(logDir, CasesOf(rows[..i]), outcomes[..n]) + [MakeRow(logDir, tc, o)]
  {
    CasesOfPrefixStep(rows, i);
    CasesOfPrefixBound(rows, i + 1);
    var cases := CasesOf(rows[..i]);
    var n := |cases|;
    if !IsSkipped(rows[i]) {
      var tc, o := ParseRow(rows[i]).value, outcomes[n];
      var done := outcomes[..n];
      assert outcomes[..n + 1] == done + [o];
      TallySnoc(done, o);
      ReportSnoc(logDir, cases, done, tc, o);
    }
  }

  /** What one more row does to the log directory: a row that is not skipped
      writes its case's log. */
  lemma RowStepLogs(rows: seq<seq<string>>, outcomes: seq<Outcome>, logDir: string, existing: map<string, string>, i: nat)
    requires i < |rows| && |outcomes| == |CasesOf(rows)|
    ensures var n := |CasesOf(rows[..i])|;
      !IsSkipped(rows[i]) ==>
        n < |outcomes| &&
        var tc, o := ParseRow(rows[i]).value, outcomes[n];
        && CasesOf(rows[..i + 1]) == CasesOf(rows[..i]) + [tc]
        && Overwrite(existing, LogWrites(logDir, CasesOf(rows[..i + 1]), outcomes[..n + 1]))
           == Overwrite(existing, LogWrites(logDir, CasesOf(rows[..i]), outcomes[..n]))[LogPath(logDir, tc) := LogText(tc, o)]
  {
    CasesOfPrefixStep(rows, i);
    CasesOfPrefixBound(rows, i + 1);
    var cases := CasesOf(rows[..i]);
    var n := |cases|;
    if !IsSkipped(rows[i]) {
      var tc, o := ParseRow(rows[i]).value, outcomes[n];
      var done := outcomes[..n];
      assert CasesOf(rows[..i + 1]) == cases + [tc];
      assert outcomes[..n + 1] == done + [o];
      LogsSnoc(logDir, existing, cases, done, tc, o);
    }
  }

  /** The loop's variables: the counters, the report rows so far and the
      files in the log directory. */
  datatype LoopState = LoopState(tally: Tally, report: seq<ReportRow>, logs: map<string, string>)

  /** What one case does to the loop's variables: its status steps the
      counters, its report row is appended and its log is written. */
  function Record(st: LoopState, logDir: string, tc: TestCase, o: Outcome): (st': LoopState)
    ensures st'.tally.total == st.tally.total + 1
    ensures |st'.report| == |st.report| + 1 && st'.report[..|st.report|] == st.report
    ensures st'.report[|st.report|].status == Classify(o).status
    ensures LogPath(logDir, tc) in st'.logs && st'.logs[LogPath(logDir, tc)] == LogText(tc, o)
  {
    LoopState(
      Step(st.tally, Classify(o).status),
      st.report + [MakeRow(logDir, tc, o)],
      st.logs[LogPath(logDir, tc) := LogText(tc, o)])
  }

  /** What one row does to the loop's variables: a skipped row changes
      nothing; any other row records its case with the next outcome. */
  function Advance(st: LoopState, row: seq<string>, outcomes: seq<Outcome>, logDir: string): (st': LoopState)
    requires !IsSkipped(row) ==> st.tally.total < |outcomes|
    ensures IsSkipped(row) ==> st' == st
    ensures !IsSkipped(row) ==> st'.tally.total == st.tally.total + 1
  {
    match ParseRow(row)
    case None => st
    case Some(tc) => Record(st, logDir, tc, outcomes[st.tally.total])
  }

  /** The loop's variables after the first `i` rows, one row at a time. */
  function StateAfter(rows: seq<seq<string>>, outcomes: seq<Outcome>, logDir: string, existing: map<string, string>, i: nat): (st: LoopState)
    requires i <= |rows| && |outcomes| == |CasesOf(rows)|
    ensures st.tally.total == |CasesOf(rows[..i])|
  {
    if i == 0 then LoopState(Tally(0, 0, 0, 0), [], existing)
    else
      var prev := StateAfter(rows, outcomes, logDir, existing, i - 1);
      CasesOfPrefixStep(rows, i - 1);
      CasesOfPrefixBound(rows, i);
      Advance(prev, rows[i - 1], outcomes, logDir)
  }

  /** The loop's variables after the first `i` rows: the summary of the
      statuses so far, the report of the cases so far, and the log directory
      as it was with the logs of those cases written over it. */
  predicate MeetsSpec(rows: seq<seq<string>>, outcomes: seq<Outcome>, logDir: string, existing: map<string, string>, i: nat, st: LoopState)
    requires i <= |rows| && |outcomes| == |CasesOf(rows)|
  {
    var n := |CasesOf(rows[..i])|;
    n <= |outcomes|
    && st.tally == TallyOf(Statuses(outcomes[..n]))
    && st.report == Report(logDir, CasesOf(rows[..i]), outcomes[..n])
    && st.logs == Overwrite(existing, LogWrites(logDir, CasesOf(rows[..i]), outcomes[..n]))
  }

  /** Processing row `i` takes a state that meets the specification for the
      first `i` rows to one that meets it for the first `i + 1`. */
  lemma AdvanceKeepsSpec(rows: seq<seq<string>>, outcomes: seq<Outcome>, logDir: string, existing: map<string, string>, i: nat, st: LoopState)
    requires i < |rows| && |outcomes| == |CasesOf(rows)|
    requires MeetsSpec(rows, outcomes, logDir, existing, i, st)
    ensures !IsSkipped(rows[i]) ==> st.tally.total < |outcomes|
    ensures MeetsSpec(rows, outcomes, logDir, existing, i + 1, Advance(st, rows[i], outcomes, logDir))
  {
    RowStep(rows, outcomes, logDir, i);
    RowStepLogs(rows, outcomes, logDir, existing, i);
  }

  /** Row by row, the loop's variables are the summary of the statuses so
      far, the report of the cases so far and the log directory with their
      logs written over it. */
  lemma {:induction false} StateAfterMeetsSpec(rows: seq<seq<string>>, outcomes: seq<Outcome>, logDir: string, existing: map<string, string>, i: nat)
    requires i <= |rows| && |outcomes| == |CasesOf(rows)|
    ensures MeetsSpec(rows, outcomes, logDir, existing, i, StateAfter(rows, outcomes, logDir, existing, i))
  {
    CasesOfPrefixBound(rows, i);
    if i > 0 {
      StateAfterMeetsSpec(rows, outcomes, logDir, existing, i - 1);
      AdvanceKeepsSpec(rows, outcomes, logDir, existing, i - 1, StateAfter(rows, outcomes, logDir, existing, i - 1));
    }
  }

  /** After every row, each processed case is counted exactly once: the
      three outcome counters add up to the total, which is the number of
      rows so far that were not skipped. */
  lemma CountersAddUpAfterEveryRow(rows: seq<seq<string>>, outcomes: seq<Outcome>, logDir: string, existing: map<string, string>, i: nat)
    requires i <= |rows| && |outcomes| == |CasesOf(rows)|
    ensures var t := StateAfter(rows, outcomes, logDir, existing, i).tally;
      t.passed + t.failed + t.timedOut == t.total == |KeptRows(rows[..i])|
  {
    StateAfterMeetsSpec(rows, outcomes, logDir, existing, i);
    CasesCountKeptRows(rows[..i]);
  }

  /** After the last row, the loop's variables are the summary of all the
      statuses, the report of all the cases and the log directory with all
      their logs written over it. */
  lemma StateAfterAllRows(rows: seq<seq<string>>, outcomes: seq<Outcome>, logDir: string, existing: map<string, string>)
    requires |outcomes| == |CasesOf(rows)|
    ensures StateAfter(rows, outcomes, logDir, existing, |rows|).tally == TallyOf(Statuses(outcomes))
    ensures StateAfter(rows, outcomes, logDir, existing, |rows|).report == Report(logDir, CasesOf(rows), outcomes)
    ensures StateAfter(rows, outcomes, logDir, existing, |rows|).logs == Overwrite(existing, LogWrites(logDir, CasesOf(rows), outcomes))
  {
    StateAfterMeetsSpec(rows, outcomes, logDir, existing, |rows|);
    assert rows[..|rows|] == rows;
    assert outcomes[..|outcomes|] == outcomes;
  }

  /** One case: write the header to the log, let the validator run with its
      output going to the log, classify how it ended and, after a timeout,
      append the notice. Returns the status, the exit code the report shows
      and the log file's final contents. */
  method RunCase(tc: TestCase, o: Outcome) returns (status: Status, exitCode: ExitRecord, logText: string)
    ensures Verdict(status, exitCode) == Classify(o)
    ensures logText == LogText(tc, o)
  {
    logText := LogHeader(tc);
    match o {
      case Exited(returnCode, output) =>
        logText := logText + output;
        if returnCode == 0 {
          status := Pass;
        } else {
          status := Fail;
        }
        exitCode := Code(returnCode);
      case TimedOut(output) =>
        logText := logText + output;
        status := Timeout;
        exitCode := Killed;
        logText := logText + TimeoutNotice;
    }
  }

  /** The body of the row loop for a case: run it, then count it, keep its
      log and append its report row. */
  method RecordCase(logDir: string, tc: TestCase, o: Outcome,
                    totalTests: nat, passedTests: nat, failedTests: nat, timeoutTests: nat,
                    report: seq<ReportRow>, logs: map<string, string>)
    returns (totalTests': nat, passedTests': nat, failedTests': nat, timeoutTests': nat,
             report': seq<ReportRow>, logs': map<string, string>)
    ensures LoopState(Tally(totalTests', passedTests', failedTests', timeoutTests'), report', logs')
      == Record(LoopState(Tally(totalTests, passedTests, failedTests, timeoutTests), report, logs), logDir, tc, o)
  {
    totalTests', passedTests', failedTests', timeoutTests' := totalTests + 1, passedTests, failedTests, timeoutTests;
    var status, exitCode, logText := RunCase(tc, o);
    match status {
      case Pass => passedTests' := passedTests + 1;
      case Fail => failedTests' := failedTests + 1;
      case Timeout => timeoutTests' := timeoutTests + 1;
    }
    assert Tally(totalTests', passedTests', failedTests', timeoutTests')
      == Step(Tally(totalTests, passedTests, failedTests, timeoutTests), status);
    logs' := logs[LogPath(logDir, tc) := logText];

    var colour := Colour(status);
    var row := ReportRow(tc.scenarioName, tc.fileName, status, colour, LogLink(logDir, tc), exitCode);
    assert row == MakeRow(logDir, tc, o);
    report' := report + [row];
  }

  /** One pass of the row loop: skip a comment or empty row; otherwise read
      the case, take the next outcome and record it. */
  method RunRow(row: seq<string>, outcomes: seq<Outcome>, logDir: string,
                totalTests: nat, passedTests: nat, failedTests: nat, timeoutTests: nat,
                report: seq<ReportRow>, logs: map<string, string>)
    returns (totalTests': nat, passedTests': nat, failedTests': nat, timeoutTests': nat,
             report': seq<ReportRow>, logs': map<string, string>)
    requires !IsSkipped(row) ==> totalTests < |outcomes|
    ensures LoopState(Tally(totalTests', passedTests', failedTests', timeoutTests'), report', logs')
      == Advance(LoopState(Tally(totalTests, passedTests, failedTests, timeoutTests), report, logs), row, outcomes, logDir)
  {
    if IsSkipped(row) {
      return totalTests, passedTests, failedTests, timeoutTests, report, logs;
    }
    var fileName := Strip(row[0]);
    var scenarioName := if |row| > 1 then Strip(row[1]) else Strip(row[0]);
    var tc := TestCase(fileName, scenarioName);
    assert ParseRow(row) == Some(tc);
    var o := outcomes[totalTests];
    totalTests', passedTests', failedTests', timeoutTests', report', logs' :=
      RecordCase(logDir, tc, o, totalTests, passedTests, failedTests, timeoutTests, report, logs);
  }

  /** The row loop of `run_tests`: every row in order, with the four
      counters, the report rows and the files of the log directory, which
      start as `existing`, the files already there. */
  method RunRows(rows: seq<seq<string>>, outcomes: seq<Outcome>, logDir: string, existing: map<string, string>)
    returns (totalTests: nat, passedTests: nat, failedTests: nat, timeoutTests: nat,
             report: seq<ReportRow>, logs: map<string, string>)
    requires |outcomes| == |CasesOf(rows)|
    ensures LoopState(Tally(totalTests, passedTests, failedTests, timeoutTests), report, logs)
      == StateAfter(rows, outcomes, logDir, existing, |rows|)
  {
    totalTests, passedTests, failedTests, timeoutTests := 0, 0, 0, 0;
    report, logs := [], existing;
    var i := 0;
    while i < |rows|
      invariant i <= |rows|
      invariant LoopState(Tally(totalTests, passedTests, failedTests, timeoutTests), report, logs)
        == StateAfter(rows, outcomes, logDir, existing, i)
    {
      CasesOfPrefixStep(rows, i);
      CasesOfPrefixBound(rows, i + 1);
      totalTests, passedTests, failedTests, timeoutTests, report, logs :=
        RunRow(rows[i], outcomes, logDir, totalTests, passedTests, failedTests, timeoutTests, report, logs);
      i := i + 1;
    }
  }

  /** `run_tests` without its I/O: the row loop over a log directory that
      already holds `existing`, then the summary and the pass rate. */
  method RunTests(rows: seq<seq<string>>, outcomes: seq<Outcome>, logDir: string, existing: map<string, string>)
    returns (summary: Tally, report: seq<ReportRow>, logs: map<string, string>, passRate: real)
    requires |outcomes| == |CasesOf(rows)|
    ensures summary.total == |CasesOf(rows)| == |report|
    ensures summary.passed + summary.failed + summary.timedOut == summary.total
    ensures summary == TallyOf(Statuses(outcomes))
    ensures report == Report(logDir, CasesOf(rows), outcomes)
    ensures logs == Overwrite(existing, LogWrites(logDir, CasesOf(rows), outcomes))
    ensures passRate == PassRate(summary.passed, summary.total) && 0.0 <= passRate <= 100.0
  {
    var totalTests, passedTests, failedTests, timeoutTests;
    totalTests, passedTests, failedTests, timeoutTests, report, logs := RunRows(rows, outcomes, logDir, existing);
    StateAfterAllRows(rows, outcomes, logDir, existing);
    summary := Tally(totalTests, passedTests, failedTests, timeoutTests);
    passRate := PassRate(passedTests, totalTests);
  }
}
