// Round-trip times per upstream and hour, and the probing of upstreams without any.
module UpstreamStats {
  import opened Options
  import opened Aggregation
  import opened HourlyStats
  import opened Numbers
  import opened Sequences

  datatype Rtt = Rtt(samples: nat, totalMs: real, maxMs: real)

  datatype RttEvent = RttEvent(address: string, ms: real, now: int)

  type RttKey = (int, string)

  const RTTS: Scheme<RttEvent, RttKey, Rtt> := Scheme(
    (e: RttEvent) => (HourOf(e.now), e.address),
    (e: RttEvent) => Rtt(1, e.ms, e.ms),
    (a: Rtt, b: Rtt) => Rtt(a.samples + b.samples, a.totalMs + b.totalMs, MaxReal(a.maxMs, b.maxMs)),
    (k: RttKey, now: int) => HourExpired(k.0, now))

  lemma RttsCombine()
    ensures Associative(RTTS) && Commutative(RTTS)
  {
  }

  // In a schedule whose writes all come within 499 hours of a sample its row is never purged.
  lemma RecentRttRetained(steps: seq<Step<RttEvent>>, e: RttEvent)
    requires forall step | step in steps :: step.Deliver? ==> e.now <= step.now <= e.now + 499 * 3600
    ensures Retained(RTTS, steps, (HourOf(e.now), e.address))
  {
    forall step | step in steps && step.Deliver?
      ensures !RTTS.expired((HourOf(e.now), e.address), step.now)
    {
      KeptForWindow(e.now, step.now);
    }
  }

  // Which addresses have a sample or a probe attempt in the covered hour.
  datatype Coverage = Coverage(hour: Option<int>, covered: set<string>)

  // `_mark_covered`
  function Mark(c: Coverage, hour: int, address: string): Coverage {
    if c.hour != Some(hour) then Coverage(Some(hour), {address})
    else Coverage(c.hour, c.covered + {address})
  }

  function UncoveredOf(c: Coverage, hour: int, addresses: seq<string>): (r: seq<string>)
    ensures forall a :: a in r <==> a in addresses && !(c.hour == Some(hour) && a in c.covered)
  {
    if addresses == [] then [] else
      var last := addresses[|addresses| - 1];
      UncoveredOf(c, hour, addresses[..|addresses| - 1])
      + if c.hour == Some(hour) && last in c.covered then [] else [last]
  }

  class UpstreamRttBuffer {
    var data: map<RttKey, Rtt>
    var coveredHour: Option<int>
    var covered: set<string>

    function State(): Coverage
      reads this
    {
      Coverage(coveredHour, covered)
    }

    ghost function Both(): (map<RttKey, Rtt>, Coverage)
      reads this
    {
      (data, State())
    }

    constructor ()
      ensures data == map[] && State() == Coverage(None, {})
    {
      data, coveredHour, covered := map[], None, {};
    }

    method MarkCovered(hour: int, address: string)
      modifies this`coveredHour, this`covered
      ensures State() == Mark(old(State()), hour, address)
    {
      if coveredHour != Some(hour) {
        coveredHour := Some(hour);
        covered := {};
      }
      covered := covered + {address};
    }

    method Add(address: string, ms: real, now: int)
      modifies this
      ensures State() == Mark(old(State()), HourOf(now), address)
      ensures data == AddEvent(RTTS, old(data), RttEvent(address, ms, now))
    {
      var key := (HourOf(now), address);
      MarkCovered(HourOf(now), address);
      if key !in data {
        data := data[key := Rtt(1, ms, ms)];
      } else {
        var acc := data[key];
        data := data[key := Rtt(acc.samples + 1, acc.totalMs + ms, MaxReal(acc.maxMs, ms))];
      }
    }

    method MarkProbed(address: string, now: int)
      modifies this`coveredHour, this`covered
      ensures State() == Mark(old(State()), HourOf(now), address)
    {
      MarkCovered(HourOf(now), address);
    }

    method Uncovered(addresses: seq<string>, now: int) returns (r: seq<string>)
      ensures r == UncoveredOf(State(), HourOf(now), addresses)
    {
      var known := if coveredHour == Some(HourOf(now)) then covered else {};
      r := [];
      for i := 0 to |addresses|
        invariant r == UncoveredOf(State(), HourOf(now), addresses[..i])
      {
        assert addresses[..i + 1][..i] == addresses[..i];
        if addresses[i] !in known {
          r := r + [addresses[i]];
        }
      }
      assert addresses[..|addresses|] == addresses;
    }

    method Take() returns (batch: map<RttKey, Rtt>)
      modifies this`data
      ensures batch == old(data) && data == map[]
    {
      batch := data;
      data := map[];
    }
  }

  class UpstreamRttTable {
    var rows: map<RttKey, Rtt>

    constructor ()
      ensures rows == map[]
    {
      rows := map[];
    }

    // `record_upstream_rtt`: upsert each row, then purge.
    method RecordUpstreamRtt(batch: map<RttKey, Rtt>, now: int)
      modifies this
      ensures rows == if batch == map[] then old(rows) else Purge(RTTS, Merge(RTTS, old(rows), batch), now)
    {
      if batch == map[] {
        return;
      }
      var list := Rows(batch);
      ghost var before := rows;
      for i := 0 to |list|
        invariant rows == UpsertAll(RTTS, before, list[..i])
      {
        assert list[..i + 1][..i] == list[..i];
        var key, row := list[i].0, list[i].1;
        if key in rows {
          var known := rows[key];
          rows := rows[key := Rtt(known.samples + row.samples, known.totalMs + row.totalMs,
                                  MaxReal(known.maxMs, row.maxMs))];
        } else {
          rows := rows[key := row];
        }
      }
      assert list[..|list|] == list;
      UpsertAllMerges(RTTS, before, list);
      rows := map k | k in rows && !HourExpired(k.0, now) :: rows[k];
    }
  }

  function SampleMs(events: seq<RttEvent>, k: RttKey): seq<real> {
    if events == [] then [] else
      var e := events[|events| - 1];
      SampleMs(events[..|events| - 1], k) + if (HourOf(e.now), e.address) == k then [e.ms] else []
  }

  function Sum(ms: seq<real>): real {
    if ms == [] then 0.0 else Sum(ms[..|ms| - 1]) + ms[|ms| - 1]
  }

  lemma {:induction false} FoldRtt(events: seq<RttEvent>, k: RttKey)
    ensures k in Fold(RTTS, events) <==> SampleMs(events, k) != []
    ensures k in Fold(RTTS, events) ==>
              var r, ms := Fold(RTTS, events)[k], SampleMs(events, k);
              r.samples == |ms| && r.totalMs == Sum(ms) && r.maxMs in ms && forall x | x in ms :: x <= r.maxMs
  {
    if events == [] {
    } else {
      FoldRtt(events[..|events| - 1], k);
      var e, ms := events[|events| - 1], SampleMs(events[..|events| - 1], k);
      if (HourOf(e.now), e.address) == k {
        assert SampleMs(events, k) == ms + [e.ms];
        assert (ms + [e.ms])[..|ms|] == ms;
      } else {
        assert SampleMs(events, k) == ms;
      }
    }
  }

  // For an hour no purge dropped, held and lost rows together give the number, the sum and
  // the maximum of all samples, in every flush schedule and with any writes failing.
  lemma {:induction false} RttTotals(steps: seq<Step<RttEvent>>, k: RttKey)
    requires Retained(RTTS, steps, k)
    ensures var all := Merge(RTTS, Held(RTTS, After(RTTS, steps)), Fold(RTTS, LedgerAfter(RTTS, steps).lost));
            var ms := SampleMs(Events(steps), k);
            && (k in all <==> ms != [])
            && (k in all ==> all[k].samples == |ms| && all[k].totalMs == Sum(ms) && all[k].maxMs in ms
                             && forall x | x in ms :: x <= all[k].maxMs)
  {
    RttsCombine();
    HeldPlusLost(RTTS, steps, k);
    FoldRtt(Events(steps), k);
  }

  // ----- Probing -----

  // One pass: what is uncovered when it starts is probed in order. `clock(i)` is the i-th
  // reading of the clock, `probe` the outcome of contacting an address.
  method ProbeRttGaps(addresses: seq<string>, rtt: UpstreamRttBuffer, clock: nat -> int,
                      probe: string -> Option<real>)
    returns (probed: seq<string>)
    modifies rtt
    ensures probed == UncoveredOf(old(rtt.State()), HourOf(clock(0)), addresses)
    ensures rtt.State() == AfterPass(old(rtt.State()), probed, clock, probe)
    ensures rtt.data == PassData(old(rtt.data), probed, clock, probe)
    // The pass is this run of probing steps.
    ensures forall p: Probing | p.coverage == old(rtt.State()) && p.targets == [] ::
              var q := RunSteps(p, PassSteps(addresses, probed, clock, probe));
              q.coverage == rtt.State() && q.targets == [] && q.probes == p.probes + ProbedAt(probed, clock)
  {
    ghost var coverage, data := rtt.State(), rtt.data;
    var targets := rtt.Uncovered(addresses, clock(0));
    probed := [];
    for i := 0 to |targets|
      invariant probed == targets[..i]
      invariant rtt.State() == AfterPass(coverage, targets[..i], clock, probe)
      invariant rtt.data == PassData(data, targets[..i], clock, probe)
    {
      PassOneMore(coverage, data, targets, i, clock, probe);
      var address := targets[i];
      probed := probed + [address];
      ProbeOne(address, rtt, clock(2 * i + 1), clock(2 * i + 2), probe(address));
    }
    assert targets[..|targets|] == targets;
    forall p: Probing | p.coverage == coverage && p.targets == [] {
      PassIsRun(p, addresses, clock, probe);
    }
  }

  method ProbeOne(address: string, rtt: UpstreamRttBuffer, markedAt: int, answeredAt: int, outcome: Option<real>)
    modifies rtt
    ensures rtt.State() == CoverageProbed(old(rtt.State()), address, markedAt, answeredAt, outcome)
    ensures rtt.data == DataProbed(old(rtt.data), address, answeredAt, outcome)
  {
    rtt.MarkProbed(address, markedAt);
    match outcome {
      case None =>
      case Some(ms) => rtt.Add(address, ms, answeredAt);
    }
  }

  // The attempt itself covers the address; a sample covers it again when it arrives.
  function CoverageProbed(c: Coverage, address: string, markedAt: int, answeredAt: int,
                          outcome: Option<real>): Coverage {
    var marked := Mark(c, HourOf(markedAt), address);
    if outcome.Some? then Mark(marked, HourOf(answeredAt), address) else marked
  }

  function DataProbed(d: map<RttKey, Rtt>, address: string, answeredAt: int, outcome: Option<real>): map<RttKey, Rtt> {
    match outcome
    case Some(ms) => AddEvent(RTTS, d, RttEvent(address, ms, answeredAt))
    case None => d
  }

  function AfterPass(c: Coverage, targets: seq<string>, clock: nat -> int, probe: string -> Option<real>): Coverage {
    if targets == [] then c else
      var i := |targets| - 1;
      CoverageProbed(AfterPass(c, targets[..i], clock, probe), targets[i],
                     clock(2 * i + 1), clock(2 * i + 2), probe(targets[i]))
  }

  function PassData(d: map<RttKey, Rtt>, targets: seq<string>, clock: nat -> int,
                    probe: string -> Option<real>): map<RttKey, Rtt> {
    if targets == [] then d else
      var i := |targets| - 1;
      DataProbed(PassData(d, targets[..i], clock, probe), targets[i], clock(2 * i + 2), probe(targets[i]))
  }

  lemma PassOneMore(c: Coverage, d: map<RttKey, Rtt>, targets: seq<string>, i: nat, clock: nat -> int,
                    probe: string -> Option<real>)
    requires i < |targets|
    ensures AfterPass(c, targets[..i + 1], clock, probe)
         == CoverageProbed(AfterPass(c, targets[..i], clock, probe), targets[i], clock(2 * i + 1), clock(2 * i + 2),
                           probe(targets[i]))
    ensures PassData(d, targets[..i + 1], clock, probe)
         == DataProbed(PassData(d, targets[..i], clock, probe), targets[i], clock(2 * i + 2), probe(targets[i]))
  {
    assert targets[..i + 1][..i] == targets[..i];
  }

  // ----- Runs of samples and passes -----

  // `targets` are what the running pass still has to probe; `marks` and `probes` are the
  // history of coverage marks and of probe attempts, by hour.
  datatype Probing = Probing(coverage: Coverage, hour: int, targets: seq<string>, passHour: int,
                             marks: set<(int, string)>, probes: seq<(int, string)>)

  datatype ProbeStep =
    | Sample(address: string, hour: int)
    | BeginPass(addresses: seq<string>, hour: int)
    | ProbeNext(hour: int)

  // The clock does not run backwards, passes do not overlap, and a pass is given no
  // uncovered address twice.
  ghost predicate Allowed(p: Probing, step: ProbeStep) {
    && p.hour <= step.hour
    && (step.BeginPass? ==> p.targets == [] && UncoveredOnce(p.coverage, step.hour, step.addresses))
    && (step.ProbeNext? ==> p.targets != [])
  }

  function NextProbing(p: Probing, step: ProbeStep): Probing {
    match step
    case Sample(a, hour) =>
      p.(coverage := Mark(p.coverage, hour, a), hour := hour, marks := p.marks + {(hour, a)})
    case BeginPass(addresses, hour) =>
      p.(targets := UncoveredOf(p.coverage, hour, addresses), hour := hour, passHour := hour)
    case ProbeNext(hour) =>
      if p.targets == [] then p else
        var a := p.targets[0];
        Probing(Mark(p.coverage, hour, a), hour, p.targets[1..], p.passHour,
                p.marks + {(hour, a)}, p.probes + [(hour, a)])
  }

  ghost predicate ProbingRun(run: seq<Probing>, steps: seq<ProbeStep>, start: int) {
    && |run| == |steps| + 1
    && run[0] == Probing(Coverage(None, {}), start, [], start, {}, [])
    && forall i | 0 <= i < |steps| :: Allowed(run[i], steps[i]) && run[i + 1] == NextProbing(run[i], steps[i])
  }

  // The coverage holds exactly the marks of the latest marked hour.
  ghost predicate CoverageExact(p: Probing) {
    && (p.coverage.hour.None? ==> p.marks == {})
    && (p.coverage.hour.Some? ==>
          && p.coverage.hour.value <= p.hour
          && (forall a :: a in p.coverage.covered <==> (p.coverage.hour.value, a) in p.marks)
          && (forall m | m in p.marks :: m.0 <= p.coverage.hour.value))
  }

  ghost predicate ProbesOnce(p: Probing) {
    && (forall m | m in p.probes :: m in p.marks)
    && Distinct(p.probes)
    && p.passHour <= p.hour
    && Distinct(p.targets)
    && (forall h, a | a in p.targets && h >= p.passHour :: (h, a) !in p.probes)
  }

  // At any time not before the last step, what is uncovered is exactly what has neither
  // a sample nor a probe attempt in the current hour.
  lemma UncoveredExact(p: Probing, hour: int, addresses: seq<string>)
    requires CoverageExact(p) && p.hour <= hour
    ensures forall a :: a in UncoveredOf(p.coverage, hour, addresses)
                   <==> a in addresses && (hour, a) !in p.marks
  {
  }

  predicate IsCovered(c: Coverage, hour: int, address: string) {
    c.hour == Some(hour) && address in c.covered
  }

  // Only covered addresses occur more than once.
  ghost predicate UncoveredOnce(c: Coverage, hour: int, addresses: seq<string>) {
    forall i, j | 0 <= i < j < |addresses| :: addresses[i] == addresses[j] ==> IsCovered(c, hour, addresses[i])
  }

  // One pass probes no address twice exactly when it is given no uncovered address twice.
  lemma {:induction false} PassProbesOnceIff(c: Coverage, hour: int, addresses: seq<string>)
    ensures Distinct(UncoveredOf(c, hour, addresses)) <==> UncoveredOnce(c, hour, addresses)
  {
    if addresses == [] {
    } else {
      var init, last := addresses[..|addresses| - 1], addresses[|addresses| - 1];
      PassProbesOnceIff(c, hour, init);
      OnceMore(c, hour, init, last);
      assert addresses == init + [last];
      var found := UncoveredOf(c, hour, init);
      if IsCovered(c, hour, last) {
        assert UncoveredOf(c, hour, addresses) == found;
      } else {
        assert UncoveredOf(c, hour, addresses) == found + [last];
        DistinctAppend(found, last);
      }
    }
  }

  lemma OnceMore(c: Coverage, hour: int, init: seq<string>, last: string)
    ensures UncoveredOnce(c, hour, init + [last])
       <==> UncoveredOnce(c, hour, init) && (IsCovered(c, hour, last) || last !in init)
  {
    var all := init + [last];
    assert all[|init|] == last && forall i | 0 <= i < |init| :: all[i] == init[i];
    if last in init && !IsCovered(c, hour, last) {
      var i :| 0 <= i < |init| && init[i] == last;
      assert all[i] == all[|init|];
    }
    if UncoveredOnce(c, hour, all) {
      forall i, j | 0 <= i < j < |init| && init[i] == init[j]
        ensures IsCovered(c, hour, init[i])
      {
        assert all[i] == all[j];
      }
    }
  }

  lemma DistinctAppend(s: seq<string>, x: string)
    ensures Distinct(s + [x]) <==> Distinct(s) && x !in s
  {
    var t := s + [x];
    assert t[|s|] == x && forall i | 0 <= i < |s| :: t[i] == s[i];
    if x in s {
      var i :| 0 <= i < |s| && s[i] == x;
      assert t[i] == t[|s|];
    }
    if Distinct(t) {
      forall i, j | 0 <= i < j < |s|
        ensures s[i] != s[j]
      {
        assert t[i] != t[j];
      }
    }
  }

  lemma BeginKeeps(p: Probing, addresses: seq<string>, hour: int)
    requires CoverageExact(p) && ProbesOnce(p) && Allowed(p, BeginPass(addresses, hour))
    ensures CoverageExact(NextProbing(p, BeginPass(addresses, hour)))
    ensures ProbesOnce(NextProbing(p, BeginPass(addresses, hour)))
  {
    UncoveredExact(p, hour, addresses);
    PassProbesOnceIff(p.coverage, hour, addresses);
    forall h, a | a in UncoveredOf(p.coverage, hour, addresses) && h >= hour
      ensures (h, a) !in p.probes
    {
      assert (h, a) in p.probes ==> (h, a) in p.marks;
    }
  }

  lemma ProbingStep(p: Probing, step: ProbeStep)
    requires CoverageExact(p) && ProbesOnce(p) && Allowed(p, step)
    ensures CoverageExact(NextProbing(p, step)) && ProbesOnce(NextProbing(p, step))
  {
    match step
    case Sample(a, hour) =>
    case BeginPass(addresses, hour) =>
      BeginKeeps(p, addresses, hour);
    case ProbeNext(hour) =>
      assert p.targets[0] in p.targets;
      assert forall a | a in p.targets[1..] :: a in p.targets && a != p.targets[0];
      assert forall m | m in p.probes :: m != (hour, p.targets[0]);
      assert forall i | 0 <= i < |p.probes| :: p.probes[i] in p.probes;
  }

  // Over any run of samples and passes, failed probes included, no address is probed twice
  // in one hour, and every pass sees exactly the addresses without a mark this hour.
  lemma {:induction false} AtMostOneProbePerHour(run: seq<Probing>, steps: seq<ProbeStep>, start: int)
    requires ProbingRun(run, steps, start)
    ensures Distinct(run[|steps|].probes)
    ensures CoverageExact(run[|steps|]) && ProbesOnce(run[|steps|])
  {
    if steps == [] {
    } else {
      var n := |steps| - 1;
      assert forall i | 0 <= i < n :: steps[..n][i] == steps[i] && run[..n + 1][i] == run[i];
      AtMostOneProbePerHour(run[..n + 1], steps[..n], start);
      ProbingStep(run[n], steps[n]);
    }
  }

  // ----- A pass is a run of steps -----

  function RunSteps(p: Probing, steps: seq<ProbeStep>): Probing {
    if steps == [] then p else NextProbing(RunSteps(p, steps[..|steps| - 1]), steps[|steps| - 1])
  }

  lemma RunOneMore(p: Probing, steps: seq<ProbeStep>, step: ProbeStep)
    ensures RunSteps(p, steps + [step]) == NextProbing(RunSteps(p, steps), step)
  {
    assert (steps + [step])[..|steps|] == steps;
  }

  // A target is probed, and an answer is a sample.
  function OneTarget(address: string, marked: int, answered: int, answers: bool): seq<ProbeStep> {
    if answers then [ProbeNext(marked)] + [Sample(address, answered)] else [ProbeNext(marked)]
  }

  function AfterTarget(p: Probing, address: string, marked: int, answered: int, answers: bool): Probing {
    var m := NextProbing(p, ProbeNext(marked));
    if answers then NextProbing(m, Sample(address, answered)) else m
  }

  lemma OneTargetRun(p: Probing, steps: seq<ProbeStep>, address: string, marked: int, answered: int, answers: bool)
    ensures RunSteps(p, steps + OneTarget(address, marked, answered, answers))
         == AfterTarget(RunSteps(p, steps), address, marked, answered, answers)
  {
    RunOneMore(p, steps, ProbeNext(marked));
    if answers {
      RunOneMore(p, steps + [ProbeNext(marked)], Sample(address, answered));
      Regroup(steps, [ProbeNext(marked)], [Sample(address, answered)]);
    }
  }

  // Each target in turn.
  function ProbeSteps(targets: seq<string>, clock: nat -> int, probe: string -> Option<real>): seq<ProbeStep> {
    if targets == [] then [] else
      var i := |targets| - 1;
      ProbeSteps(targets[..i], clock, probe)
      + OneTarget(targets[i], HourOf(clock(2 * i + 1)), HourOf(clock(2 * i + 2)), probe(targets[i]).Some?)
  }

  function PassSteps(addresses: seq<string>, targets: seq<string>, clock: nat -> int, probe: string -> Option<real>):
    seq<ProbeStep>
  {
    [BeginPass(addresses, HourOf(clock(0)))] + ProbeSteps(targets, clock, probe)
  }

  function ProbedAt(targets: seq<string>, clock: nat -> int): seq<(int, string)> {
    seq(|targets|, i requires 0 <= i < |targets| => (HourOf(clock(2 * i + 1)), targets[i]))
  }

  // Where the pass is after n targets.
  function PassedBy(p: Probing, targets: seq<string>, n: nat, clock: nat -> int, probe: string -> Option<real>): Probing
    requires n <= |targets|
  {
    RunSteps(p, ProbeSteps(targets[..n], clock, probe))
  }

  lemma ProbeStepsMore(targets: seq<string>, n: nat, clock: nat -> int, probe: string -> Option<real>)
    requires n < |targets|
    ensures ProbeSteps(targets[..n + 1], clock, probe)
         == ProbeSteps(targets[..n], clock, probe)
            + OneTarget(targets[n], HourOf(clock(2 * n + 1)), HourOf(clock(2 * n + 2)), probe(targets[n]).Some?)
  {
    assert targets[..n + 1][..n] == targets[..n];
  }

  lemma PassedMore(p: Probing, targets: seq<string>, n: nat, clock: nat -> int, probe: string -> Option<real>)
    requires n < |targets|
    ensures PassedBy(p, targets, n + 1, clock, probe)
         == AfterTarget(PassedBy(p, targets, n, clock, probe), targets[n], HourOf(clock(2 * n + 1)),
                        HourOf(clock(2 * n + 2)), probe(targets[n]).Some?)
  {
    ProbeStepsMore(targets, n, clock, probe);
    OneTargetRun(p, ProbeSteps(targets[..n], clock, probe), targets[n], HourOf(clock(2 * n + 1)),
                 HourOf(clock(2 * n + 2)), probe(targets[n]).Some?);
  }

  lemma TargetDone(p: Probing, markedAt: int, answeredAt: int, outcome: Option<real>)
    requires p.targets != []
    ensures var a := p.targets[0];
            var q := AfterTarget(p, a, HourOf(markedAt), HourOf(answeredAt), outcome.Some?);
            && q.coverage == CoverageProbed(p.coverage, a, markedAt, answeredAt, outcome)
            && q.targets == p.targets[1..] && q.probes == p.probes + [(HourOf(markedAt), a)]
  {
  }

  lemma ProbedOneMore(targets: seq<string>, n: nat, clock: nat -> int)
    requires n < |targets|
    ensures ProbedAt(targets[..n + 1], clock)
         == ProbedAt(targets[..n], clock) + [(HourOf(clock(2 * n + 1)), targets[n])]
  {
  }

  // After n targets the run of steps is where the pass is.
  ghost predicate InStep(p: Probing, q: Probing, targets: seq<string>, n: nat, clock: nat -> int,
                         probe: string -> Option<real>)
    requires n <= |targets|
  {
    && q.coverage == AfterPass(p.coverage, targets[..n], clock, probe) && q.targets == targets[n..]
    && q.probes == p.probes + ProbedAt(targets[..n], clock)
  }

  lemma TargetsRunStep(p: Probing, q: Probing, targets: seq<string>, n: nat, clock: nat -> int,
                       probe: string -> Option<real>)
    requires n < |targets| && InStep(p, q, targets, n, clock, probe)
    ensures InStep(p,
                   AfterTarget(q, targets[n], HourOf(clock(2 * n + 1)), HourOf(clock(2 * n + 2)),
                               probe(targets[n]).Some?),
                   targets, n + 1, clock, probe)
  {
    PassOneMore(p.coverage, map[], targets, n, clock, probe);
    ProbedOneMore(targets, n, clock);
    TargetDone(q, clock(2 * n + 1), clock(2 * n + 2), probe(targets[n]));
    Regroup(p.probes, ProbedAt(targets[..n], clock), [(HourOf(clock(2 * n + 1)), targets[n])]);
  }

  lemma TargetsRun(p: Probing, targets: seq<string>, n: nat, clock: nat -> int, probe: string -> Option<real>)
    requires p.targets == targets && n <= |targets|
    ensures InStep(p, PassedBy(p, targets, n, clock, probe), targets, n, clock, probe)
  {
    assert targets[..0] == [] && targets[0..] == targets;
    assert ProbedAt([], clock) == [];
    for k := 0 to n
      invariant InStep(p, PassedBy(p, targets, k, clock, probe), targets, k, clock, probe)
    {
      PassedMore(p, targets, k, clock, probe);
      TargetsRunStep(p, PassedBy(p, targets, k, clock, probe), targets, k, clock, probe);
    }
  }

  lemma {:induction false} RunFirst(p: Probing, step: ProbeStep, rest: seq<ProbeStep>)
    ensures RunSteps(p, [step] + rest) == RunSteps(NextProbing(p, step), rest)
  {
    if rest == [] {
      assert [step] + rest == [] + [step];
      RunOneMore(p, [], step);
    } else {
      var init, last := rest[..|rest| - 1], rest[|rest| - 1];
      LastApart([step], rest);
      RunFirst(p, step, init);
      RunOneMore(p, [step] + init, last);
      RunOneMore(NextProbing(p, step), init, last);
    }
  }

  // What the method does to the coverage is what its steps do, and they leave no target.
  lemma PassIsRun(p: Probing, addresses: seq<string>, clock: nat -> int, probe: string -> Option<real>)
    requires p.targets == []
    ensures var targets := UncoveredOf(p.coverage, HourOf(clock(0)), addresses);
            var q := RunSteps(p, PassSteps(addresses, targets, clock, probe));
            && q.coverage == AfterPass(p.coverage, targets, clock, probe) && q.targets == []
            && q.probes == p.probes + ProbedAt(targets, clock)
  {
    var begin := BeginPass(addresses, HourOf(clock(0)));
    var targets := UncoveredOf(p.coverage, HourOf(clock(0)), addresses);
    RunFirst(p, begin, ProbeSteps(targets, clock, probe));
    TargetsRun(NextProbing(p, begin), targets, |targets|, clock, probe);
    assert targets[..|targets|] == targets;
  }

  // With a clock that does not run backwards and no uncovered address given twice, a whole
  // pass keeps what every run keeps: no address is probed twice in an hour.
  lemma PassKeeps(p: Probing, addresses: seq<string>, clock: nat -> int, probe: string -> Option<real>)
    requires CoverageExact(p) && ProbesOnce(p) && Allowed(p, BeginPass(addresses, HourOf(clock(0))))
    requires forall i: nat :: clock(i) <= clock(i + 1)
    ensures var targets := UncoveredOf(p.coverage, HourOf(clock(0)), addresses);
            var q := RunSteps(p, PassSteps(addresses, targets, clock, probe));
            CoverageExact(q) && ProbesOnce(q) && Distinct(p.probes + ProbedAt(targets, clock))
  {
    var begin := BeginPass(addresses, HourOf(clock(0)));
    var targets := UncoveredOf(p.coverage, HourOf(clock(0)), addresses);
    ProbingStep(p, begin);
    PassIsRun(p, addresses, clock, probe);
    RunFirst(p, begin, ProbeSteps(targets, clock, probe));
    TargetsKeep(NextProbing(p, begin), targets, |targets|, clock, probe);
    assert targets[..|targets|] == targets;
  }

  // What every run keeps, at a time not after the given reading of the clock.
  ghost predicate KeptAt(q: Probing, clock: nat -> int, reading: nat) {
    CoverageExact(q) && ProbesOnce(q) && q.hour <= HourOf(clock(reading))
  }

  lemma TargetsKeepStep(q: Probing, n: nat, clock: nat -> int, answers: bool)
    requires KeptAt(q, clock, 2 * n) && q.targets != []
    requires clock(2 * n) <= clock(2 * n + 1) <= clock(2 * n + 2)
    ensures KeptAt(AfterTarget(q, q.targets[0], HourOf(clock(2 * n + 1)), HourOf(clock(2 * n + 2)), answers), clock,
                   2 * n + 2)
  {
    TargetKeeps(q, HourOf(clock(2 * n + 1)), HourOf(clock(2 * n + 2)), answers);
  }

  lemma TargetsKeep(p: Probing, targets: seq<string>, n: nat, clock: nat -> int, probe: string -> Option<real>)
    requires KeptAt(p, clock, 0) && p.targets == targets
    requires n <= |targets| && forall i: nat :: clock(i) <= clock(i + 1)
    ensures KeptAt(PassedBy(p, targets, n, clock, probe), clock, 2 * n)
  {
    assert targets[..0] == [];
    for k := 0 to n
      invariant KeptAt(PassedBy(p, targets, k, clock, probe), clock, 2 * k)
    {
      OneTargetKeeps(p, targets, k, clock, probe);
    }
  }

  lemma NextTarget(p: Probing, targets: seq<string>, k: nat, clock: nat -> int, probe: string -> Option<real>)
    requires k < |targets| && p.targets == targets
    ensures var q := PassedBy(p, targets, k, clock, probe); q.targets != [] && q.targets[0] == targets[k]
  {
    TargetsRun(p, targets, k, clock, probe);
  }

  lemma OneTargetKeeps(p: Probing, targets: seq<string>, k: nat, clock: nat -> int, probe: string -> Option<real>)
    requires k < |targets| && p.targets == targets && KeptAt(PassedBy(p, targets, k, clock, probe), clock, 2 * k)
    requires forall i: nat :: clock(i) <= clock(i + 1)
    ensures KeptAt(PassedBy(p, targets, k + 1, clock, probe), clock, 2 * (k + 1))
  {
    var q := PassedBy(p, targets, k, clock, probe);
    NextTarget(p, targets, k, clock, probe);
    PassedMore(p, targets, k, clock, probe);
    assert clock(2 * k) <= clock(2 * k + 1) <= clock((2 * k + 1) + 1);
    TargetsKeepStep(q, k, clock, probe(targets[k]).Some?);
    assert 2 * (k + 1) == 2 * k + 2;
  }

  lemma TargetKeeps(p: Probing, marked: int, answered: int, answers: bool)
    requires CoverageExact(p) && ProbesOnce(p) && p.targets != [] && p.hour <= marked <= answered
    ensures var q := AfterTarget(p, p.targets[0], marked, answered, answers);
            CoverageExact(q) && ProbesOnce(q) && q.hour <= answered
  {
    ProbingStep(p, ProbeNext(marked));
    if answers {
      ProbingStep(NextProbing(p, ProbeNext(marked)), Sample(p.targets[0], answered));
    }
  }

  // So a repeated address is probed twice by a single pass.
  lemma RepeatedAddressProbedTwice(c: Coverage, hour: int, address: string)
    requires !(c.hour == Some(hour) && address in c.covered)
    ensures UncoveredOf(c, hour, [address, address]) == [address, address]
  {
    var one := [address];
    assert one[..0] == [];
    assert UncoveredOf(c, hour, one) == one;
    assert [address, address][..1] == one;
  }
}
