/**
 Whole runs of migrations: the history of a chain, convergence of a list of scripts, and the
 independence of chains from each other.
 */
module MigrationRuns {
  import opened Wrappers
  import opened Migration

  // ---------- The state of one chain ----------

  // The version table is missing, empty, or holds one version.
  predicate Sound(store: Store, chain: string) {
    var rows := Rows(store, chain);
    rows == [] || (|rows| == 1 && rows[0].Number?)
  }

  function Version(store: Store, chain: string): int
    requires Sound(store, chain)
  {
    var rows := Rows(store, chain);
    if rows == [] then 0 else rows[0].version as int
  }

  // The scripts of a chain, in the order in which they ran.
  function History(log: seq<Entry>, chain: string): seq<Entry> {
    if |log| == 0 then []
    else if log[0].chain == chain then [log[0]] + History(log[1..], chain)
    else History(log[1..], chain)
  }

  lemma HistoryCons(e: Entry, log: seq<Entry>, chain: string, first: seq<Entry>)
    requires first == if e.chain == chain then [e] else []
    ensures History([e] + log, chain) == first + History(log, chain)
  {
    assert ([e] + log)[1..] == log && [] + History(log, chain) == History(log, chain);
  }

  lemma {:induction false} HistoryAppend(log: seq<Entry>, e: Entry, chain: string)
    ensures History(log + [e], chain) == History(log, chain) + if e.chain == chain then [e] else []
  {
    if |log| == 0 {
      HistoryCons(e, [], chain, if e.chain == chain then [e] else []);
      assert [e] + [] == [e] == log + [e];
    } else {
      HistoryAppend(log[1..], e, chain);
      var first := if log[0].chain == chain then [log[0]] else [];
      Grow(first, History(log[1..], chain), if e.chain == chain then [e] else []);
      HistoryCons(log[0], log[1..], chain, first);
      HistoryCons(log[0], log[1..] + [e], chain, first);
      assert [log[0]] + log[1..] == log && [log[0]] + (log[1..] + [e]) == log + [e];
    }
  }

  // ---------- One call ----------

  // The calls that move their chain.
  predicate Moves(store: Store, call: Call)
    requires Sound(store, Chain(call.suffix))
  {
    Migrate(store, call).result.Ok? && call.newVersion as int > Version(store, Chain(call.suffix))
  }

  // A call moves its own chain up by one version and appends its script, or it leaves version and
  // history as they were. Where it succeeds, its version has been reached.
  lemma OneCall(store: Store, call: Call)
    requires Sound(store, Chain(call.suffix))
    ensures var chain, o := Chain(call.suffix), Migrate(store, call);
            && Sound(o.store, chain)
            && (o.result.Ok? ==> call.newVersion as int <= Version(o.store, chain))
            && (if Moves(store, call) then
                  && call.script.Some? && Version(o.store, chain) == Version(store, chain) + 1 == call.newVersion as int
                  && o.store.log == store.log + [Applied(chain, call.script.value)]
                else
                  Version(o.store, chain) == Version(store, chain) && o.store.log == store.log)
  {
  }

  lemma ReadElsewhere(store: Store, chain: string, faults: Faults, other: string)
    requires other != chain
    ensures var after := ReadVersion(store, chain, faults).store;
            Rows(after, other) == Rows(store, other) && after.log == store.log
  {
  }

  // It changes no other chain.
  lemma OtherChain(store: Store, call: Call, chain: string)
    requires chain != Chain(call.suffix)
    ensures var after := Migrate(store, call).store;
            && Rows(after, chain) == Rows(store, chain)
            && History(after.log, chain) == History(store.log, chain)
  {
    if call.script.Some? {
      ReadElsewhere(store, Chain(call.suffix), call.faults, chain);
      HistoryAppend(store.log, Applied(Chain(call.suffix), call.script.value), chain);
    }
  }

  // The calls that get past a version table of several rows: the first of them is a version, reading
  // fails right after it, and everything else goes well.
  predicate Misread(rows: seq<Row>, call: Call)
    requires |rows| > 0
  {
    var f := call.faults;
    && call.script.Some? && call.connected && f.create.None? && f.select == Some(1) && rows[0].Number?
    && (|| call.newVersion <= rows[0].version
        || (&& call.newVersion as int == rows[0].version as int + 1
            && !f.script && f.update.None? && f.commit.None?))
  }

  // A version table with several rows, or whose row is no version, makes a call throw and change
  // nothing, if and only if it is not misread.
  lemma CorruptedIsRefused(store: Store, call: Call)
    requires !Sound(store, Chain(call.suffix))
    ensures var o := Migrate(store, call);
            o.result.Threw? && o.store == store <==> !Misread(Rows(store, Chain(call.suffix)), call)
  {
    var chain, rows := Chain(call.suffix), Rows(store, Chain(call.suffix));
    assert store.tables[chain := rows] == store.tables;
    assert rows[0] in rows && rows[..1] == [rows[0]];
  }

  // A misread table is rewritten: a script runs, and every row becomes its version.
  lemma MisreadMoves(store: Store, call: Call)
    requires !Sound(store, Chain(call.suffix)) && Misread(Rows(store, Chain(call.suffix)), call)
    requires call.newVersion > Rows(store, Chain(call.suffix))[0].version
    ensures var chain, o := Chain(call.suffix), Migrate(store, call);
            && o.result.Ok? && |Rows(o.store, chain)| == |Rows(store, chain)|
            && (forall row :: row in Rows(o.store, chain) ==> row == Number(call.newVersion))
            && o.store.log == store.log + [Applied(chain, call.script.value)]
  {
  }

  // ---------- Traces ----------

  // A call, and the store that was durable when it ended or was cut short, where the next one starts.
  datatype Step = Step(call: Call, after: Store)

  ghost predicate Trace(store: Store, steps: seq<Step>)
    decreases |steps|
  {
    |steps| > 0 ==> Leaves(store, steps[0].call, steps[0].after) && Trace(steps[0].after, steps[1..])
  }

  function Last(store: Store, steps: seq<Step>): Store {
    if |steps| == 0 then store else steps[|steps| - 1].after
  }

  ghost predicate MovesChain(store: Store, step: Step, chain: string) {
    && Chain(step.call.suffix) == chain && Sound(store, chain) && Sound(step.after, chain)
    && Version(step.after, chain) > Version(store, chain)
  }

  // The calls on one chain that moved it.
  ghost function Moving(store: Store, steps: seq<Step>, chain: string): seq<Call>
    decreases |steps|
  {
    if |steps| == 0 then
      []
    else
      var rest := Moving(steps[0].after, steps[1..], chain);
      if MovesChain(store, steps[0], chain) then [steps[0].call] + rest else rest
  }

  ghost function Scripts(calls: seq<Call>, chain: string): seq<Entry> {
    if |calls| == 0 then
      []
    else
      (if calls[0].script.Some? then [Applied(chain, calls[0].script.value)] else []) + Scripts(calls[1..], chain)
  }

  // A crash after any statement of a call leaves version and history as they were, or as the whole
  // call would have left them: never a moved version without its script, nor the reverse.
  lemma CrashSafe(store: Store, call: Call, after: Store)
    requires Sound(store, Chain(call.suffix)) && Leaves(store, call, after)
    ensures var chain, whole := Chain(call.suffix), Migrate(store, call).store;
            && Sound(after, chain)
            && (|| (Version(after, chain) == Version(store, chain) && after.log == store.log)
                || (Moves(store, call) && Version(after, chain) == Version(whole, chain) && after.log == whole.log))
  {
    OneCall(store, call);
  }

  lemma LeavesOtherChain(store: Store, call: Call, after: Store, chain: string)
    requires Leaves(store, call, after) && chain != Chain(call.suffix)
    ensures Rows(after, chain) == Rows(store, chain) && History(after.log, chain) == History(store.log, chain)
  {
    OtherChain(store, call, chain);
  }

  // What a chain shows: its version and the scripts that ran.
  ghost predicate Progress(after: Store, before: Store, chain: string, moving: seq<Call>) {
    && Sound(before, chain) && Sound(after, chain)
    && Version(after, chain) == Version(before, chain) + |moving|
    && History(after.log, chain) == History(before.log, chain) + Scripts(moving, chain)
  }

  // The moving calls ask for the next versions one after the other.
  ghost predicate Consecutive(moving: seq<Call>, version: int) {
    forall k :: 0 <= k < |moving| ==> moving[k].script.Some? && moving[k].newVersion as int == version + 1 + k
  }

  lemma StepProgress(store: Store, step: Step, chain: string, moving: seq<Call>)
    requires Sound(store, chain) && Leaves(store, step.call, step.after)
    requires moving == if MovesChain(store, step, chain) then [step.call] else []
    ensures Progress(step.after, store, chain, moving) && Consecutive(moving, Version(store, chain))
  {
    var call := step.call;
    if Chain(call.suffix) == chain {
      CrashSafe(store, call, step.after);
      OneCall(store, call);
      if call.script.Some? {
        HistoryAppend(store.log, Applied(chain, call.script.value), chain);
        assert Scripts([call], chain) == [Applied(chain, call.script.value)] + Scripts([], chain);
      }
    } else {
      LeavesOtherChain(store, call, step.after, chain);
    }
    Grow(History(store.log, chain), [], []);
  }

  lemma {:induction false} ScriptsAppend(a: seq<Call>, b: seq<Call>, chain: string)
    ensures Scripts(a + b, chain) == Scripts(a, chain) + Scripts(b, chain)
  {
    if |a| == 0 {
      assert a + b == b;
    } else {
      ScriptsAppend(a[1..], b, chain);
      assert (a + b)[1..] == a[1..] + b && (a + b)[0] == a[0];
      var first := if a[0].script.Some? then [Applied(chain, a[0].script.value)] else [];
      Grow(first, Scripts(a[1..], chain), Scripts(b, chain));
    }
  }

  lemma ProgressAppend(after: Store, mid: Store, before: Store, chain: string, first: seq<Call>, rest: seq<Call>)
    requires Progress(mid, before, chain, first) && Progress(after, mid, chain, rest)
    ensures Progress(after, before, chain, first + rest)
  {
    ScriptsAppend(first, rest, chain);
    Grow(History(before.log, chain), Scripts(first, chain), Scripts(rest, chain));
  }

  lemma ConsecutiveAppend(first: seq<Call>, rest: seq<Call>, version: int, next: int)
    requires next == version + |first| && Consecutive(first, version) && Consecutive(rest, next)
    ensures Consecutive(first + rest, version)
  {
  }

  // Over any run of calls, on this chain and others, with any statements failing and any call cut
  // short by a crash after any of its statements: the version of the chain rises by the calls that
  // moved it, which asked for the next versions one after the other, and the chain's history grows by
  // exactly their scripts, in that order.
  lemma {:induction false} HistoryOfTrace(store: Store, steps: seq<Step>, chain: string)
    requires Sound(store, chain) && Trace(store, steps)
    ensures Progress(Last(store, steps), store, chain, Moving(store, steps, chain))
    ensures Consecutive(Moving(store, steps, chain), Version(store, chain))
    decreases |steps|
  {
    if |steps| == 0 {
      Grow(History(store.log, chain), Scripts([], chain), []);
    } else {
      var next := steps[0].after;
      var first := if MovesChain(store, steps[0], chain) then [steps[0].call] else [];
      var rest := Moving(next, steps[1..], chain);
      StepProgress(store, steps[0], chain, first);
      HistoryOfTrace(next, steps[1..], chain);
      ProgressAppend(Last(next, steps[1..]), next, store, chain, first, rest);
      ConsecutiveAppend(first, rest, Version(store, chain), Version(next, chain));
      assert Moving(store, steps, chain) == first + rest;
    }
  }

  // ---------- Runs of whole calls ----------

  function RunAll(store: Store, calls: seq<Call>): Store
    decreases |calls|
  {
    if |calls| == 0 then store else RunAll(Migrate(store, calls[0]).store, calls[1..])
  }

  function WholeCalls(store: Store, calls: seq<Call>): seq<Step>
    decreases |calls|
  {
    if |calls| == 0 then
      []
    else
      var next := Migrate(store, calls[0]).store;
      [Step(calls[0], next)] + WholeCalls(next, calls[1..])
  }

  lemma WholeCallLeaves(store: Store, call: Call)
    ensures Leaves(store, call, Migrate(store, call).store)
  {
  }

  lemma {:induction false} WholeCallsTrace(store: Store, calls: seq<Call>)
    ensures Trace(store, WholeCalls(store, calls)) && Last(store, WholeCalls(store, calls)) == RunAll(store, calls)
    decreases |calls|
  {
    if |calls| == 0 {
    } else {
      var next := Migrate(store, calls[0]).store;
      WholeCallLeaves(store, calls[0]);
      WholeCallsTrace(next, calls[1..]);
      assert WholeCalls(store, calls)[1..] == WholeCalls(next, calls[1..]);
    }
  }

  lemma HistoryOfRun(store: Store, calls: seq<Call>, chain: string)
    requires Sound(store, chain)
    ensures var moving := Moving(store, WholeCalls(store, calls), chain);
            Progress(RunAll(store, calls), store, chain, moving) && Consecutive(moving, Version(store, chain))
  {
    WholeCallsTrace(store, calls);
    HistoryOfTrace(store, WholeCalls(store, calls), chain);
  }

  // ---------- Convergence ----------

  const NO_FAULTS := Faults(None, None, None, false, None, None)

  function Upgrade(script: string, version: int64, suffix: Option<string>): Call {
    Call(Some(script), version, suffix, true, NO_FAULTS)
  }

  // A list of scripts, for the versions after `from`.
  function Upgrades(scripts: seq<string>, from: nat, suffix: Option<string>): seq<Call>
    requires from + |scripts| <= 0x7FFF_FFFF_FFFF_FFFF
  {
    if |scripts| == 0 then []
    else [Upgrade(scripts[0], (from + 1) as int64, suffix)] + Upgrades(scripts[1..], from + 1, suffix)
  }

  predicate AllSucceed(store: Store, calls: seq<Call>)
    decreases |calls|
  {
    |calls| > 0 ==> Migrate(store, calls[0]).result.Ok? && AllSucceed(Migrate(store, calls[0]).store, calls[1..])
  }

  function Entries(scripts: seq<string>, chain: string): seq<Entry> {
    seq(|scripts|, i requires 0 <= i < |scripts| => Applied(chain, scripts[i]))
  }

  // The store with the version table of a chain at a version, and more scripts behind it.
  function At(store: Store, chain: string, version: int, scripts: seq<string>): Store
    requires -0x8000_0000_0000_0000 <= version <= 0x7FFF_FFFF_FFFF_FFFF
  {
    Store(store.tables[chain := [Number(version as int64)]], store.log + Entries(scripts, chain))
  }

  // Without faults a call succeeds exactly when its version is at most one ahead.
  lemma FaultlessCall(store: Store, script: string, version: int64, suffix: Option<string>)
    requires Sound(store, Chain(suffix))
    ensures var o, v := Migrate(store, Upgrade(script, version, suffix)), Version(store, Chain(suffix));
            && (o.result.Ok? <==> version as int <= v + 1)
            && o.store == if version as int == v + 1 then At(store, Chain(suffix), v + 1, [script])
                          else At(store, Chain(suffix), v, [])
  {
    var chain, rows := Chain(suffix), Rows(store, Chain(suffix));
    assert Entries([], chain) == [] && Entries([script], chain) == [Applied(chain, script)];
    assert store.log + [] == store.log;
    assert SetAll([Number(0)], version) == [Number(version)];
    if rows != [] {
      assert rows == [rows[0]] && SetAll(rows, version) == [Number(version)];
    }
    Overwritten(store.tables, chain, [Number(0)], [Number(version)]);
    Overwritten(store.tables, chain, rows, [Number(version)]);
  }

  lemma Overwritten<T>(m: map<string, T>, k: string, a: T, b: T)
    ensures m[k := a][k := b] == m[k := b]
  {
  }

  lemma AtAt(store: Store, chain: string, a: int, b: int, before: seq<string>, after: seq<string>)
    requires -0x8000_0000_0000_0000 <= a <= b <= 0x7FFF_FFFF_FFFF_FFFF
    ensures At(At(store, chain, a, before), chain, b, after) == At(store, chain, b, before + after)
  {
    Overwritten(store.tables, chain, [Number(a as int64)], [Number(b as int64)]);
    assert Entries(before + after, chain) == Entries(before, chain) + Entries(after, chain);
    assert store.log + (Entries(before, chain) + Entries(after, chain)) ==
           store.log + Entries(before, chain) + Entries(after, chain);
  }

  // The scripts of a list that a chain at a version has yet to run.
  function Pending(scripts: seq<string>, from: nat, version: int): seq<string>
    requires from <= version
  {
    if version - from < |scripts| then scripts[version - from..] else []
  }

  function Max(a: int, b: int): int {
    if a < b then b else a
  }

  // A list of scripts succeeds as a whole if and only if the chain is at the version the list starts
  // from, or further. Then the chain ends at the version of the last script or where it already was;
  // exactly the scripts after its version have run, and the version table holds exactly that one row.
  lemma {:induction false} Converges(store: Store, scripts: seq<string>, from: nat, suffix: Option<string>)
    requires from + |scripts| <= 0x7FFF_FFFF_FFFF_FFFF && |scripts| > 0 && Sound(store, Chain(suffix))
    ensures var calls, v := Upgrades(scripts, from, suffix), Version(store, Chain(suffix));
            && (AllSucceed(store, calls) <==> from <= v)
            && RunAll(store, calls) ==
               if from <= v then At(store, Chain(suffix), Max(v, from + |scripts|), Pending(scripts, from, v))
               else At(store, Chain(suffix), v, [])
    decreases |scripts|, 1
  {
    var chain, v := Chain(suffix), Version(store, Chain(suffix));
    var first, rest := Upgrade(scripts[0], (from + 1) as int64, suffix), Upgrades(scripts[1..], from + 1, suffix);
    assert Upgrades(scripts, from, suffix) == [first] + rest;
    if v < from {
      var next := At(store, chain, v, []);
      FaultlessCall(store, scripts[0], (from + 1) as int64, suffix);
      RunCons(store, first, rest, next);
      if |scripts| > 1 {
        Converges(next, scripts[1..], from + 1, suffix);
        AtAt(store, chain, v, v, [], []);
      }
    } else {
      var n, missing := Max(v, from + |scripts|), Pending(scripts, from, v);
      ConvergesOn(store, scripts, from, suffix, v, first, rest, n, missing);
    }
  }

  // The case in which the first call succeeds.
  lemma {:induction false} ConvergesOn(store: Store, scripts: seq<string>, from: nat, suffix: Option<string>, v: int,
                                       first: Call, rest: seq<Call>, n: int, missing: seq<string>)
    requires from + |scripts| <= 0x7FFF_FFFF_FFFF_FFFF && |scripts| > 0
    requires Sound(store, Chain(suffix)) && from <= v == Version(store, Chain(suffix))
    requires first == Upgrade(scripts[0], (from + 1) as int64, suffix)
    requires rest == Upgrades(scripts[1..], from + 1, suffix)
    requires n == Max(v, from + |scripts|) && missing == Pending(scripts, from, v)
    ensures AllSucceed(store, [first] + rest)
    ensures RunAll(store, [first] + rest) == At(store, Chain(suffix), n, missing)
    decreases |scripts|, 0
  {
    var chain := Chain(suffix);
    var run, reached := if v == from then [scripts[0]] else [], Max(v, from + 1);
    var next := At(store, chain, reached, run);
    OneUpgrade(store, scripts[0], from, suffix, run, reached, next);
    RunCons(store, first, rest, next);
    if |scripts| > 1 {
      var end, later := Max(reached, from + 1 + |scripts[1..]|), Pending(scripts[1..], from + 1, reached);
      Converges(next, scripts[1..], from + 1, suffix);
      AtAt(store, chain, reached, end, run, later);
      PendingCons(scripts, from, v, run, later);
      assert end == n && run + later == missing;
    } else {
      PendingCons(scripts, from, v, run, []);
      assert reached == n && run + [] == run == missing;
    }
  }

  lemma OneUpgrade(store: Store, script: string, from: nat, suffix: Option<string>, run: seq<string>, reached: int,
                   next: Store)
    requires from < 0x7FFF_FFFF_FFFF_FFFF && Sound(store, Chain(suffix)) && from <= Version(store, Chain(suffix))
    requires run == if Version(store, Chain(suffix)) == from then [script] else []
    requires reached == Max(Version(store, Chain(suffix)), from + 1) && next == At(store, Chain(suffix), reached, run)
    ensures Migrate(store, Upgrade(script, (from + 1) as int64, suffix)) == Outcome(next, Ok(()))
    ensures Sound(next, Chain(suffix)) && Version(next, Chain(suffix)) == reached
  {
    FaultlessCall(store, script, (from + 1) as int64, suffix);
  }

  lemma RunCons(store: Store, call: Call, rest: seq<Call>, next: Store)
    requires Migrate(store, call).store == next
    ensures RunAll(store, [call] + rest) == RunAll(next, rest)
    ensures AllSucceed(store, [call] + rest) <==> Migrate(store, call).result.Ok? && AllSucceed(next, rest)
  {
    assert ([call] + rest)[1..] == rest;
  }

  lemma PendingCons(scripts: seq<string>, from: nat, v: int, run: seq<string>, rest: seq<string>)
    requires |scripts| > 0 && from <= v && run == if v == from then [scripts[0]] else []
    requires rest == Pending(scripts[1..], from + 1, Max(v, from + 1))
    ensures run + rest == Pending(scripts, from, v)
  {
  }

  // Running the list again changes nothing at all.
  lemma RepeatingChangesNothing(store: Store, scripts: seq<string>, suffix: Option<string>)
    requires |scripts| <= 0x7FFF_FFFF_FFFF_FFFF
    requires Sound(store, Chain(suffix)) && 0 <= Version(store, Chain(suffix))
    ensures var calls := Upgrades(scripts, 0, suffix);
            RunAll(RunAll(store, calls), calls) == RunAll(store, calls)
  {
    if |scripts| > 0 {
      var chain, v := Chain(suffix), Version(store, Chain(suffix));
      var n := Max(v, |scripts|);
      Converges(store, scripts, 0, suffix);
      var once := At(store, chain, n, Pending(scripts, 0, v));
      Converges(once, scripts, 0, suffix);
      AtAt(store, chain, n, n, Pending(scripts, 0, v), []);
      assert Pending(scripts, 0, v) + [] == Pending(scripts, 0, v);
    }
  }

  // ---------- Independence ----------

  function SuffixText(suffix: Option<string>): string {
    if suffix.Some? then suffix.value else ""
  }

  function Fold(suffix: Option<string>): string {
    Lower(SuffixText(suffix))
  }

  // Letter by letter the same, or one in upper and one in lower case.
  predicate SameLetter(a: char, b: char) {
    || a == b
    || ('A' <= a <= 'Z' && b as int == a as int + 32)
    || ('A' <= b <= 'Z' && a as int == b as int + 32)
  }

  predicate SameUpToCase(a: string, b: string) {
    |a| == |b| && forall i :: 0 <= i < |a| ==> SameLetter(a[i], b[i])
  }

  lemma LowerMeans(a: string, b: string)
    ensures Lower(a) == Lower(b) <==> SameUpToCase(a, b)
  {
    forall i | 0 <= i < |a| && i < |b| ensures LowerChar(a[i]) == LowerChar(b[i]) <==> SameLetter(a[i], b[i]) {
    }
    if SameUpToCase(a, b) {
      assert forall i :: 0 <= i < |a| ==> Lower(a)[i] == Lower(b)[i];
    } else if |a| == |b| {
      var i :| 0 <= i < |a| && !SameLetter(a[i], b[i]);
      assert Lower(a)[i] != Lower(b)[i];
    } else {
      assert |Lower(a)| != |Lower(b)|;
    }
  }

  // Two suffixes share a version table exactly when they are equal up to ASCII case, where no suffix
  // and the empty suffix count as equal.
  lemma ChainsDiffer(a: Option<string>, b: Option<string>)
    ensures Chain(a) == Chain(b) <==> SameUpToCase(SuffixText(a), SuffixText(b))
  {
    ChainIs(a);
    ChainIs(b);
    FoldOfChain(a);
    FoldOfChain(b);
    LowerMeans(SuffixText(a), SuffixText(b));
  }

  // What is left of a table name behind the stem and an underscore.
  function Behind(chain: string): string {
    if |chain| > 21 then chain[21..] else ""
  }

  lemma FoldOfChain(suffix: Option<string>)
    ensures Fold(suffix) == Behind(Chain(suffix))
  {
    ChainIs(suffix);
    var stem := Lower("oatpp_schema_version");
    assert |stem| == 20;
    if Fold(suffix) != "" {
      assert Chain(suffix)[21..] == Fold(suffix);
    }
  }

  lemma ChainIs(suffix: Option<string>)
    ensures Chain(suffix) == Lower("oatpp_schema_version") + if Fold(suffix) == "" then "" else "_" + Fold(suffix)
  {
    if suffix.Some? && |suffix.value| > 0 {
      assert |Fold(suffix)| > 0;
      LowerAppend("oatpp_schema_version", "_" + suffix.value);
      LowerAppend("_", suffix.value);
      assert Lower("_") == "_";
    }
  }

  lemma LowerAppend(a: string, b: string)
    ensures Lower(a + b) == Lower(a) + Lower(b)
  {
  }

  // What one chain can tell of a store.
  ghost predicate SameView(a: Store, b: Store, chain: string) {
    Rows(a, chain) == Rows(b, chain) && History(a.log, chain) == History(b.log, chain)
  }

  function Only(calls: seq<Call>, chain: string): seq<Call> {
    if |calls| == 0 then []
    else (if Chain(calls[0].suffix) == chain then [calls[0]] else []) + Only(calls[1..], chain)
  }

  // What the calls on one chain return in a run.
  function Results(store: Store, calls: seq<Call>, chain: string): seq<Result<(), MigrationError>>
    decreases |calls|
  {
    if |calls| == 0 then
      []
    else
      var o := Migrate(store, calls[0]);
      (if Chain(calls[0].suffix) == chain then [o.result] else []) + Results(o.store, calls[1..], chain)
  }

  lemma ReadAlike(a: Store, b: Store, chain: string, faults: Faults)
    requires Rows(a, chain) == Rows(b, chain)
    ensures var o, o' := ReadVersion(a, chain, faults), ReadVersion(b, chain, faults);
            && o.result == o'.result && Rows(o.store, chain) == Rows(o'.store, chain)
            && o.store.log == a.log && o'.store.log == b.log
  {
  }

  lemma SameStep(a: Store, b: Store, call: Call)
    requires SameView(a, b, Chain(call.suffix))
    ensures var o, o' := Migrate(a, call), Migrate(b, call);
            o.result == o'.result && SameView(o.store, o'.store, Chain(call.suffix))
  {
    if call.script.Some? {
      ReadAlike(a, b, Chain(call.suffix), call.faults);
      HistoryAppend(a.log, Applied(Chain(call.suffix), call.script.value), Chain(call.suffix));
      HistoryAppend(b.log, Applied(Chain(call.suffix), call.script.value), Chain(call.suffix));
    }
  }

  // However the calls on several chains are interleaved, each chain fares, in its version table, its
  // history and what its calls return, as if the calls on the others had not been made.
  lemma {:induction false} ChainsDoNotInterfere(a: Store, b: Store, calls: seq<Call>, chain: string)
    requires SameView(a, b, chain)
    ensures SameView(RunAll(a, calls), RunAll(b, Only(calls, chain)), chain)
    ensures Results(a, calls, chain) == Results(b, Only(calls, chain), chain)
    decreases |calls|
  {
    if |calls| == 0 {
    } else {
      var call, rest := calls[0], Only(calls[1..], chain);
      var next := Migrate(a, call).store;
      if Chain(call.suffix) == chain {
        SameStep(a, b, call);
        ChainsDoNotInterfere(next, Migrate(b, call).store, calls[1..], chain);
        assert Only(calls, chain) == [call] + rest && ([call] + rest)[1..] == rest;
      } else {
        OtherChain(a, call, chain);
        ChainsDoNotInterfere(next, b, calls[1..], chain);
        assert Only(calls, chain) == [] + rest == rest;
      }
    }
  }
}
