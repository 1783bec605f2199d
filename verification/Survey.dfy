/** A survey of the station's own position, main/survey.cpp. */
module Survey {
  import opened Common
  import opened Statistics

  // Positions are averaged as they come and, apart, by blocks of a minute, whose scatter decides
  // when the survey is done.

  const MIN_TIME_SEC := 300
  const BLOCK_TIME_SEC := 60
  const MIN_BLOCKS := 5
  const MAX_STABILITY_M: real := 0.5
  const NO_STABILITY: real := 9999.0
  const METRES_PER_DEGREE: real := 111319.5
  const SECOND := 1_000_000
  const UINT32 := 0x1_0000_0000

  datatype Axis = Latitude | Longitude | Height

  datatype Triple = Triple(lat: real, lon: real, height: real) {
    function At(a: Axis): real {
      match a
      case Latitude => lat
      case Longitude => lon
      case Height => height
    }
  }

  const ORIGIN := Triple(0.0, 0.0, 0.0)

  /** A mean and a sum of squared deviations for each axis. */
  datatype Stats = Stats(mean: Triple, m2: Triple)

  const NO_STATS := Stats(ORIGIN, ORIGIN)

  /** update_welford, once for each axis */
  function Update(p: Triple, count: nat, st: Stats): Stats
    requires count > 0
  {
    Stats(
      Triple(UpdateMean(p.lat, count, st.mean.lat), UpdateMean(p.lon, count, st.mean.lon),
             UpdateMean(p.height, count, st.mean.height)),
      Triple(UpdateM2(p.lat, count, st.mean.lat, st.m2.lat), UpdateM2(p.lon, count, st.mean.lon, st.m2.lon),
             UpdateM2(p.height, count, st.mean.height, st.m2.height)))
  }

  function Add(p: Triple, q: Triple): Triple {
    Triple(p.lat + q.lat, p.lon + q.lon, p.height + q.height)
  }

  function Divide(p: Triple, n: nat): Triple
    requires n > 0
  {
    Triple(p.lat / n as real, p.lon / n as real, p.height / n as real)
  }

  /** One position from the receiver; `cosLat` is the cosine of its latitude. */
  datatype Fix = Fix(pos: Triple, sigma: Triple, cosLat: real)

  predicate Plausible(fix: Fix) {
    && -90.0 <= fix.pos.lat <= 90.0 && -180.0 <= fix.pos.lon <= 180.0
    && -1000.0 <= fix.pos.height <= 20000.0
    && 0.0 <= fix.sigma.lat <= 100.0 && 0.0 <= fix.sigma.lon <= 100.0 && 0.0 <= fix.sigma.height <= 100.0
  }

  /** The square of standard_error. */
  function ErrorSquared(m2: real, count: nat): real {
    if count < 2 then Square(NO_STABILITY) else m2 / (count - 1) as real / count as real
  }

  datatype Mode = Idle | Collecting | Done

  /** A finished survey; `variance` is, in metres, the square of what the program reports. */
  datatype Report = Report(position: Triple, variance: Triple, elapsed: nat)

  const NO_REPORT := Report(ORIGIN, ORIGIN, 0)

  /** The block being filled and the blocks already closed. */
  datatype Blocks = Blocks(index: Option<nat>, samples: nat, sum: Triple, count: nat, stats: Stats)

  const NO_BLOCKS := Blocks(None, 0, ORIGIN, 0, NO_STATS)

  datatype State = State(
    mode: Mode, startedUs: int, pending: bool, report: Report,
    samples: nat, all: Stats, blocks: Blocks)

  const BOOT := State(Idle, 0, false, NO_REPORT, 0, NO_STATS, NO_BLOCKS)

  function Started(now: int): State {
    State(Collecting, now, false, NO_REPORT, 0, NO_STATS, NO_BLOCKS)
  }

  function WhenReset(s: State): State {
    s.(mode := Idle, report := NO_REPORT, pending := false)
  }

  /** commit_block */
  function Committed(b: Blocks): Blocks {
    if b.samples == 0 then b
    else
      b.(count := b.count + 1, stats := Update(Divide(b.sum, b.samples), b.count + 1, b.stats),
         samples := 0, sum := ORIGIN)
  }

  /** Whole seconds since the start, as a uint32_t; the division truncates. */
  function Elapsed(startedUs: int, now: int): (e: nat)
    ensures e < UINT32
  {
    var d := now - startedUs;
    (if d >= 0 then d / SECOND else -(-d / SECOND)) % UINT32
  }

  function IntoBlock(b: Blocks, pos: Triple, index: nat): Blocks {
    var c := if b.index.Some? && b.index.value != index then Committed(b) else b;
    c.(index := Some(index), samples := c.samples + 1, sum := Add(c.sum, pos))
  }

  /** The squares of lat_m, lon_m and height_m. */
  function Variance(b: Blocks, cosLat: real): Triple {
    if b.count < 2 then Triple(Square(NO_STABILITY), Square(NO_STABILITY), Square(NO_STABILITY))
    else
      Triple(ErrorSquared(b.stats.m2.lat, b.count) * Square(METRES_PER_DEGREE),
             ErrorSquared(b.stats.m2.lon, b.count) * Square(METRES_PER_DEGREE * cosLat),
             ErrorSquared(b.stats.m2.height, b.count))
  }

  predicate Stable(b: Blocks, cosLat: real) {
    var v := Variance(b, cosLat);
    b.count >= 2 && v.lat + v.lon + v.height <= Square(MAX_STABILITY_M)
  }

  /** parse_best_position, once the fields are numbers */
  function WithFix(s: State, fix: Fix, now: int): State {
    if s.mode != Collecting || !Plausible(fix) then s
    else
      var elapsed := Elapsed(s.startedUs, now);
      var all := Update(fix.pos, s.samples + 1, s.all);
      var b := IntoBlock(s.blocks, fix.pos, elapsed / BLOCK_TIME_SEC);
      var t := s.(samples := s.samples + 1, all := all, blocks := b);
      if elapsed >= MIN_TIME_SEC && b.count >= MIN_BLOCKS && Stable(b, fix.cosLat) then
        t.(mode := Done, pending := true, report := Report(all.mean, Variance(b, fix.cosLat), elapsed))
      else
        t
  }

  // --------------------------------------------------------------- samples and their runs

  /** A position that was taken in, `elapsed` seconds after the start. */
  datatype Sample = Sample(pos: Triple, cosLat: real, elapsed: nat)

  function Positions(xs: seq<Sample>): (ps: seq<Triple>)
    ensures |ps| == |xs|
    ensures forall i | 0 <= i < |xs| :: ps[i] == xs[i].pos
  {
    seq(|xs|, i requires 0 <= i < |xs| => xs[i].pos)
  }

  function Along(ps: seq<Triple>, a: Axis): (rs: seq<real>)
    ensures |rs| == |ps|
    ensures forall i | 0 <= i < |ps| :: rs[i] == ps[i].At(a)
  {
    seq(|ps|, i requires 0 <= i < |ps| => ps[i].At(a))
  }

  /** `st` is the mean of the positions and their squared deviations from it, on every axis. */
  ghost predicate ExactStats(st: Stats, ps: seq<Triple>) {
    forall a: Axis :: Exact(st.mean.At(a), st.m2.At(a), Along(ps, a))
  }

  ghost predicate IsTotal(sum: Triple, ps: seq<Triple>) {
    forall a: Axis :: sum.At(a) == Sum(Along(ps, a))
  }

  ghost predicate IsMean(mean: Triple, ps: seq<Triple>) {
    ps != [] && forall a: Axis :: mean.At(a) == Mean(Along(ps, a))
  }

  function Minute(x: Sample): nat {
    x.elapsed / 60
  }

  /** The samples cut into maximal runs of the same minute. */
  function Runs(xs: seq<Sample>): (runs: seq<seq<Sample>>)
    ensures |runs| <= |xs|
    ensures xs != [] ==>
      && runs != [] && runs[|runs| - 1] != []
      && runs[|runs| - 1][|runs[|runs| - 1]| - 1] == xs[|xs| - 1]
    decreases |xs|
  {
    if xs == [] then []
    else
      var init, x := xs[..|xs| - 1], xs[|xs| - 1];
      var runs := Runs(init);
      if init != [] && Minute(init[|init| - 1]) == Minute(x) then
        runs[..|runs| - 1] + [runs[|runs| - 1] + [x]]
      else
        runs + [[x]]
  }

  function Flatten(runs: seq<seq<Sample>>): seq<Sample>
    decreases |runs|
  {
    if runs == [] then [] else Flatten(runs[..|runs| - 1]) + runs[|runs| - 1]
  }

  /** The runs after one more sample. */
  lemma RunsStep(xs: seq<Sample>)
    requires xs != []
    ensures var init, x := xs[..|xs| - 1], xs[|xs| - 1];
      var runs := Runs(init);
      if init != [] && Minute(init[|init| - 1]) == Minute(x) then
        runs != [] && Runs(xs) == runs[..|runs| - 1] + [runs[|runs| - 1] + [x]]
      else
        Runs(xs) == runs + [[x]]
  {
    hide Minute;
  }

  lemma FlattenLast(runs: seq<seq<Sample>>, last: seq<Sample>)
    ensures Flatten(runs + [last]) == Flatten(runs) + last
  {
    assert (runs + [last])[..|runs|] == runs;
  }

  /** Nothing is lost: the runs are the samples in order. */
  lemma {:induction false} RunsFlatten(xs: seq<Sample>)
    ensures Flatten(Runs(xs)) == xs
    decreases |xs|
  {
    if xs != [] {
      RunsStep(xs);
      hide Runs, Flatten, Minute;
      var init, x := xs[..|xs| - 1], xs[|xs| - 1];
      var runs := Runs(init);
      RunsFlatten(init);
      assert init + [x] == xs;
      if init != [] && Minute(init[|init| - 1]) == Minute(x) {
        var most, last := runs[..|runs| - 1], runs[|runs| - 1];
        assert runs == most + [last];
        FlattenLast(most, last);
        FlattenLast(most, last + [x]);
        ConcatAssoc(Flatten(most), last, [x]);
      } else {
        FlattenLast(runs, [x]);
      }
    }
  }

  /** Every run is of one minute, and the next run is of another: the runs are maximal. */
  lemma {:induction false} RunsAreMaximal(xs: seq<Sample>, k: nat, i: nat)
    requires k < |Runs(xs)| && i < |Runs(xs)[k]|
    ensures Runs(xs)[k] != [] && Minute(Runs(xs)[k][i]) == Minute(Runs(xs)[k][0])
    ensures k + 1 < |Runs(xs)| ==> Runs(xs)[k + 1] != [] && Minute(Runs(xs)[k + 1][0]) != Minute(Runs(xs)[k][i])
    decreases |xs|
  {
    NotEmpty(xs);
    RunsStep(xs);
    hide Minute, Runs;
    var init, x := xs[..|xs| - 1], xs[|xs| - 1];
    var runs := Runs(init);
    if init != [] {
      var l := |runs| - 1;
      var last := runs[l];
      RunsAreMaximal(init, l, |last| - 1);
      if k < l || (k == l && i < |last|) {
        RunsAreMaximal(init, k, i);
      }
    }
  }

  lemma NotEmpty(xs: seq<Sample>)
    requires Runs(xs) != []
    ensures xs != []
  {
  }

  predicate Nondecreasing(xs: seq<Sample>) {
    forall i, j | 0 <= i <= j < |xs| :: xs[i].elapsed <= xs[j].elapsed
  }

  /** A run starts in a later minute than the one before it, so minute k at least is needed for
      run k. */
  lemma {:induction false} RunsTakeMinutes(xs: seq<Sample>)
    requires Nondecreasing(xs) && xs != []
    ensures |Runs(xs)| - 1 <= Minute(xs[|xs| - 1])
    decreases |xs|
  {
    var init := xs[..|xs| - 1];
    if init != [] {
      RunsTakeMinutes(init);
      assert xs[|xs| - 2].elapsed <= xs[|xs| - 1].elapsed;
    }
  }

  /** The means of all runs but the last. */
  ghost predicate AreMeans(means: seq<Triple>, runs: seq<seq<Sample>>) {
    && |means| == |runs|
    && forall k | 0 <= k < |runs| :: IsMean(means[k], Positions(runs[k]))
  }

  function Closed(xs: seq<Sample>): (runs: seq<seq<Sample>>) {
    if xs == [] then [] else Runs(xs)[..|Runs(xs)| - 1]
  }

  function Current(xs: seq<Sample>): (run: seq<Sample>)
    requires xs != []
    ensures run != []
  {
    Runs(xs)[|Runs(xs)| - 1]
  }

  // ------------------------------------------------------------------- what a step keeps

  lemma UpdateStatsIsExact(p: Triple, ps: seq<Triple>, st: Stats)
    requires ExactStats(st, ps)
    ensures ExactStats(Update(p, |ps| + 1, st), ps + [p])
  {
    hide UpdateMean, UpdateM2, Exact;
    forall a: Axis
      ensures var u := Update(p, |ps| + 1, st); Exact(u.mean.At(a), u.m2.At(a), Along(ps + [p], a))
    {
      UpdateIsExact(p.At(a), Along(ps, a), st.mean.At(a), st.m2.At(a));
      assert Along(ps + [p], a) == Along(ps, a) + [p.At(a)];
    }
  }

  lemma AddIsTotal(p: Triple, ps: seq<Triple>, sum: Triple)
    requires IsTotal(sum, ps)
    ensures IsTotal(Add(sum, p), ps + [p])
  {
    hide Sum;
    forall a: Axis ensures Add(sum, p).At(a) == Sum(Along(ps + [p], a)) {
      assert Along(ps + [p], a) == Along(ps, a) + [p.At(a)];
      Append(Along(ps, a), p.At(a), 0.0);
    }
  }

  lemma DivideIsMean(sum: Triple, ps: seq<Triple>)
    requires IsTotal(sum, ps) && ps != []
    ensures IsMean(Divide(sum, |ps|), ps)
  {
    forall a: Axis ensures Divide(sum, |ps|).At(a) == Mean(Along(ps, a)) {
    }
  }

  /** The blocks of the program are the runs of the samples: the open block is the last run and
      the statistics are exact over the means, in order, of all runs before it. */
  ghost predicate BlocksInv(b: Blocks, xs: seq<Sample>, means: seq<Triple>) {
    && b.index == (if xs == [] then None else Some(Minute(xs[|xs| - 1])))
    && b.samples == (if xs == [] then 0 else |Current(xs)|)
    && (xs != [] ==> IsTotal(b.sum, Positions(Current(xs))))
    && (xs == [] ==> b.sum == ORIGIN)
    && AreMeans(means, Closed(xs))
    && b.count == |means| && ExactStats(b.stats, means)
  }

  lemma EmptyStats()
    ensures ExactStats(NO_STATS, []) && IsTotal(ORIGIN, [])
  {
    assert forall a: Axis :: Along([], a) == [];
  }

  lemma RunsAppend(xs: seq<Sample>, x: Sample)
    ensures var ys := xs + [x];
      if xs != [] && Minute(xs[|xs| - 1]) == Minute(x) then
        Closed(ys) == Closed(xs) && Current(ys) == Current(xs) + [x]
      else
        Closed(ys) == (if xs == [] then [] else Closed(xs) + [Current(xs)]) && Current(ys) == [x]
  {
    var ys := xs + [x];
    assert ys[..|ys| - 1] == xs;
    hide Minute;
    if xs != [] {
      assert Runs(xs) == Closed(xs) + [Current(xs)];
    }
  }

  lemma PositionsAppend(xs: seq<Sample>, x: Sample)
    ensures Positions(xs + [x]) == Positions(xs) + [x.pos]
  {
  }

  lemma CommitKeepsInv(b: Blocks, xs: seq<Sample>, means: seq<Triple>) returns (means': seq<Triple>)
    requires xs != [] && BlocksInv(b, xs, means)
    ensures AreMeans(means', Closed(xs) + [Current(xs)])
    ensures Committed(b).count == |means'| && ExactStats(Committed(b).stats, means')
  {
    hide ExactStats, IsTotal, IsMean, Update, Divide, Closed, Current, Positions;
    var mean := Divide(b.sum, b.samples);
    DivideIsMean(b.sum, Positions(Current(xs)));
    UpdateStatsIsExact(mean, means, b.stats);
    means' := means + [mean];
  }

  lemma StartRun(b: Blocks, pos: Triple)
    ensures IsTotal(Add(ORIGIN, pos), [pos])
  {
    EmptyStats();
    AddIsTotal(pos, [], ORIGIN);
    assert [] + [pos] == [pos];
  }

  lemma SameMinuteKeepsInv(b: Blocks, xs: seq<Sample>, means: seq<Triple>, x: Sample)
    requires BlocksInv(b, xs, means) && xs != [] && Minute(xs[|xs| - 1]) == Minute(x)
    ensures BlocksInv(IntoBlock(b, x.pos, Minute(x)), xs + [x], means)
  {
    hide ExactStats, IsTotal, Add, Closed, Current, Positions, AreMeans, Minute, Committed;
    RunsAppend(xs, x);
    PositionsAppend(Current(xs), x);
    AddIsTotal(x.pos, Positions(Current(xs)), b.sum);
  }

  lemma NewMinuteKeepsInv(b: Blocks, xs: seq<Sample>, means: seq<Triple>, x: Sample) returns (means': seq<Triple>)
    requires BlocksInv(b, xs, means) && (xs != [] ==> Minute(xs[|xs| - 1]) != Minute(x))
    ensures BlocksInv(IntoBlock(b, x.pos, Minute(x)), xs + [x], means')
  {
    OnePosition(x);
    hide ExactStats, IsTotal, Add, Closed, Current, Positions, AreMeans, Minute, Committed;
    RunsAppend(xs, x);
    StartRun(b, x.pos);
    means' := means;
    if xs == [] {
      NoneClosed();
    } else {
      CommittedOpen(b);
      means' := CommitKeepsInv(b, xs, means);
    }
  }

  lemma OnePosition(x: Sample)
    ensures Positions([x]) == [x.pos]
  {
  }

  lemma NoneClosed()
    ensures Closed([]) == []
  {
  }

  lemma CommittedOpen(b: Blocks)
    ensures b.samples > 0 ==> Committed(b).samples == 0 && Committed(b).sum == ORIGIN
  {
    hide Update, Divide;
  }

  lemma IntoBlockKeepsInv(b: Blocks, xs: seq<Sample>, means: seq<Triple>, x: Sample) returns (means': seq<Triple>)
    requires BlocksInv(b, xs, means)
    ensures BlocksInv(IntoBlock(b, x.pos, Minute(x)), xs + [x], means')
  {
    hide *;
    means' := means;
    if xs != [] && Minute(xs[|xs| - 1]) == Minute(x) {
      SameMinuteKeepsInv(b, xs, means, x);
    } else {
      means' := NewMinuteKeepsInv(b, xs, means, x);
    }
  }

  // ------------------------------------------------------------------------ whole surveys

  function MeanOf(ps: seq<Triple>): (mean: Triple)
    ensures ps != [] ==> IsMean(mean, ps)
  {
    if ps == [] then ORIGIN
    else
      var mean := Triple(Mean(Along(ps, Latitude)), Mean(Along(ps, Longitude)), Mean(Along(ps, Height)));
      assert forall a: Axis :: mean.At(a) == Mean(Along(ps, a));
      mean
  }

  /** The mean position of every minute that is over. */
  function BlockMeans(xs: seq<Sample>): (means: seq<Triple>)
    ensures |means| == |Closed(xs)|
  {
    seq(|Closed(xs)|, k requires 0 <= k < |Closed(xs)| => MeanOf(Positions(Closed(xs)[k])))
  }

  lemma MeansAreBlockMeans(means: seq<Triple>, xs: seq<Sample>)
    requires AreMeans(means, Closed(xs))
    ensures means == BlockMeans(xs)
  {
    hide Closed, Mean, Along;
    forall k | 0 <= k < |means| ensures means[k] == BlockMeans(xs)[k] {
      SameMean(means[k], Positions(Closed(xs)[k]));
    }
  }

  lemma SameMean(m: Triple, ps: seq<Triple>)
    requires IsMean(m, ps)
    ensures m == MeanOf(ps)
  {
    var n := MeanOf(ps);
    assert m.At(Latitude) == n.At(Latitude) && m.At(Longitude) == n.At(Longitude);
    assert m.At(Height) == n.At(Height);
  }

  /** The sampling variance, in square metres, of the mean of the block means. */
  function Scatter(means: seq<Triple>, cosLat: real): Triple
    requires |means| >= 2
  {
    var n := |means|;
    var lat, lon, h := Along(means, Latitude), Along(means, Longitude), Along(means, Height);
    Triple(Deviations(lat, Mean(lat)) / (n - 1) as real / n as real * Square(111319.5),
           Deviations(lon, Mean(lon)) / (n - 1) as real / n as real * Square(111319.5 * cosLat),
           Deviations(h, Mean(h)) / (n - 1) as real / n as real)
  }

  predicate Settled(means: seq<Triple>, cosLat: real) {
    && |means| >= 5
    && var v := Scatter(means, cosLat); v.lat + v.lon + v.height <= Square(0.5)
  }

  /** A report says where the samples are on average, how far the means of at least five whole
      minutes scatter, and how long it took. */
  ghost predicate Justified(r: Report, xs: seq<Sample>) {
    && xs != []
    && var last := xs[|xs| - 1];
      && IsMean(r.position, Positions(xs))
      && Settled(BlockMeans(xs), last.cosLat) && r.variance == Scatter(BlockMeans(xs), last.cosLat)
      && r.elapsed == last.elapsed && r.elapsed >= 300
  }

  datatype Op = Start(now: int) | Reset | Position(fix: Fix, now: int) | Take

  /** A survey, the samples taken in since its start and how often its result was delivered. */
  datatype Log = Log(s: State, xs: seq<Sample>, delivered: nat)

  function Taken(s: State, fix: Fix, now: int): Sample {
    Sample(fix.pos, fix.cosLat, Elapsed(s.startedUs, now))
  }

  function Step(l: Log, op: Op): Log {
    match op
    case Start(now) => Log(Started(now), [], 0)
    case Reset => l.(s := WhenReset(l.s))
    case Position(fix, now) =>
      Log(WithFix(l.s, fix, now),
          if l.s.mode == Collecting && Plausible(fix) then l.xs + [Taken(l.s, fix, now)] else l.xs,
          l.delivered)
    case Take => if l.s.pending then Log(l.s.(pending := false), l.xs, l.delivered + 1) else l
  }

  function Run(l: Log, ops: seq<Op>): Log
    decreases |ops|
  {
    if ops == [] then l else Run(Step(l, ops[0]), ops[1..])
  }

  ghost predicate StatsInv(s: State, xs: seq<Sample>) {
    && s.samples == |xs| && ExactStats(s.all, Positions(xs)) && BlocksInv(s.blocks, xs, BlockMeans(xs))
  }

  ghost predicate Inv(l: Log) {
    && StatsInv(l.s, l.xs)
    && l.delivered <= 1
    && (l.s.mode == Collecting ==> !l.s.pending && l.delivered == 0)
    && (l.s.pending ==> l.s.mode == Done && l.delivered == 0 && Justified(l.s.report, l.xs))
  }

  lemma StartKeepsInv(now: int)
    ensures StatsInv(Started(now), []) && StatsInv(BOOT, [])
  {
    EmptyStats();
    assert Positions([]) == [] && BlockMeans([]) == [];
  }

  lemma FixKeepsStats(s: State, xs: seq<Sample>, fix: Fix, now: int)
    requires StatsInv(s, xs) && s.mode == Collecting && Plausible(fix)
    ensures StatsInv(WithFix(s, fix, now), xs + [Taken(s, fix, now)])
  {
    var x := Taken(s, fix, now);
    PositionsAppend(xs, x);
    hide ExactStats, BlocksInv, Plausible, IntoBlock, Update, Stable, Variance, BlockMeans, Positions;
    UpdateStatsIsExact(fix.pos, Positions(xs), s.all);
    var means := IntoBlockKeepsInv(s.blocks, xs, BlockMeans(xs), x);
    NextMeans(IntoBlock(s.blocks, x.pos, Minute(x)), xs + [x], means);
  }

  lemma NextMeans(b: Blocks, xs: seq<Sample>, means: seq<Triple>)
    requires BlocksInv(b, xs, means)
    ensures means == BlockMeans(xs)
  {
    MeansAreBlockMeans(means, xs);
  }

  /** The program's numbers are those of the definition. */
  lemma VarianceIsScatter(b: Blocks, xs: seq<Sample>, cosLat: real)
    requires BlocksInv(b, xs, BlockMeans(xs)) && b.count >= 2
    ensures Variance(b, cosLat) == Scatter(BlockMeans(xs), cosLat)
  {
    var means := BlockMeans(xs);
    hide Closed, Current, AreMeans, BlockMeans, IsTotal, Mean, Deviations, Square;
    assert forall a: Axis :: Exact(b.stats.mean.At(a), b.stats.m2.At(a), Along(means, a));
    var m2 := b.stats.m2;
    assert m2.At(Latitude) == Deviations(Along(means, Latitude), Mean(Along(means, Latitude)));
    assert m2.At(Longitude) == Deviations(Along(means, Longitude), Mean(Along(means, Longitude)));
    assert m2.At(Height) == Deviations(Along(means, Height), Mean(Along(means, Height)));
  }

  lemma FixIsJustified(s: State, xs: seq<Sample>, fix: Fix, now: int)
    requires StatsInv(s, xs) && s.mode == Collecting && Plausible(fix)
    ensures var t, ys := WithFix(s, fix, now), xs + [Taken(s, fix, now)];
      && (t.mode == if Taken(s, fix, now).elapsed >= 300 && Settled(BlockMeans(ys), fix.cosLat)
                    then Done else Collecting)
      && (t.mode == Done ==> Justified(t.report, ys))
      && t.pending == (s.pending || t.mode == Done)
  {
    var x := Taken(s, fix, now);
    var t, ys := WithFix(s, fix, now), xs + [x];
    FixKeepsStats(s, xs, fix, now);
    hide ExactStats, BlocksInv, Plausible, IntoBlock, Update, Elapsed;
    BlockCount(t.blocks, ys);
    if t.blocks.count >= 2 {
      VarianceIsScatter(t.blocks, ys, fix.cosLat);
    }
    hide Variance, Scatter, BlockMeans, Positions;
    MeanOfAll(t.all, Positions(ys));
  }

  lemma BlockCount(b: Blocks, xs: seq<Sample>)
    requires BlocksInv(b, xs, BlockMeans(xs))
    ensures b.count == |BlockMeans(xs)|
  {
  }

  lemma MeanOfAll(st: Stats, ps: seq<Triple>)
    requires ExactStats(st, ps) && ps != []
    ensures IsMean(st.mean, ps)
  {
    hide Mean, Deviations;
    forall a: Axis ensures st.mean.At(a) == Mean(Along(ps, a)) {
      assert Exact(st.mean.At(a), st.m2.At(a), Along(ps, a));
    }
  }

  lemma StepKeepsInv(l: Log, op: Op)
    requires Inv(l)
    ensures Inv(Step(l, op))
  {
    match op
    case Start(now) =>
      StartKeepsInv(now);
    case Reset =>
    case Position(fix, now) =>
      hide StatsInv, Justified, Plausible, Settled;
      if l.s.mode == Collecting && Plausible(fix) {
        FixKeepsStats(l.s, l.xs, fix, now);
        FixIsJustified(l.s, l.xs, fix, now);
      }
    case Take =>
  }

  /** Over every run, from power-on: the figures are exact, and the result of a start is
      delivered at most once, and only when it is justified by the samples since that start. */
  lemma {:induction false} RunKeepsInv(l: Log, ops: seq<Op>)
    requires Inv(l)
    ensures Inv(Run(l, ops))
    decreases |ops|
  {
    hide Inv, Step;
    if ops != [] {
      StepKeepsInv(l, ops[0]);
      RunKeepsInv(Step(l, ops[0]), ops[1..]);
    }
  }

  lemma BootKeepsInv(ops: seq<Op>)
    ensures Inv(Run(Log(BOOT, [], 0), ops))
  {
    StartKeepsInv(0);
    RunKeepsInv(Log(BOOT, [], 0), ops);
  }

  /** Five whole minutes cannot pass in less than five minutes: on a clock that does not run
      backwards the test of the elapsed time never decides. */
  lemma BlocksTakeTheirTime(s: State, xs: seq<Sample>, fix: Fix, now: int)
    requires StatsInv(s, xs) && s.mode == Collecting && Plausible(fix)
    requires Nondecreasing(xs + [Taken(s, fix, now)])
    ensures var ys := xs + [Taken(s, fix, now)];
      && 60 * |BlockMeans(ys)| <= Taken(s, fix, now).elapsed
      && (WithFix(s, fix, now).mode == Done <==> Settled(BlockMeans(ys), fix.cosLat))
  {
    var ys := xs + [Taken(s, fix, now)];
    FixIsJustified(s, xs, fix, now);
    hide WithFix, StatsInv, Plausible;
    RunsTakeMinutes(ys);
  }

  lemma ElapsedGrows(startedUs: int, now: int, later: int)
    requires startedUs <= now <= later < startedUs + UINT32 * SECOND
    ensures Elapsed(startedUs, now) <= Elapsed(startedUs, later)
  {
  }

  /** The clock has not run backwards, and not for 2^32 seconds since the start of the survey. */
  predicate OnTime(l: Log, op: Op, clock: int) {
    match op
    case Start(now) => clock <= now
    case Position(_, now) => clock <= now && (l.s.mode == Collecting ==> now < l.s.startedUs + UINT32 * SECOND)
    case _ => true
  }

  function ClockAfter(op: Op, clock: int): int {
    match op
    case Start(now) => now
    case Position(_, now) => now
    case _ => clock
  }

  predicate AllOnTime(l: Log, ops: seq<Op>, clock: int)
    decreases |ops|
  {
    ops == [] || (OnTime(l, ops[0], clock) && AllOnTime(Step(l, ops[0]), ops[1..], ClockAfter(ops[0], clock)))
  }

  function Clock(ops: seq<Op>, clock: int): int
    decreases |ops|
  {
    if ops == [] then clock else Clock(ops[1..], ClockAfter(ops[0], clock))
  }

  /** While a survey collects, its samples are in order of time and none is newer than the clock. */
  ghost predicate ClockInv(l: Log, clock: int) {
    l.s.mode == Collecting ==>
      && l.s.startedUs <= clock < l.s.startedUs + UINT32 * SECOND
      && Nondecreasing(l.xs)
      && forall i | 0 <= i < |l.xs| :: l.xs[i].elapsed <= Elapsed(l.s.startedUs, clock)
  }

  lemma FixLeavesStart(s: State, fix: Fix, now: int)
    ensures WithFix(s, fix, now).startedUs == s.startedUs
    ensures WithFix(s, fix, now).mode == Collecting ==> s.mode == Collecting
  {
    hide Plausible, Update, IntoBlock, Stable, Variance, Elapsed;
  }

  lemma StepKeepsClock(l: Log, op: Op, clock: int)
    requires ClockInv(l, clock) && OnTime(l, op, clock)
    ensures ClockInv(Step(l, op), ClockAfter(op, clock))
  {
    hide WithFix, Plausible, Elapsed;
    if op.Position? && l.s.mode == Collecting {
      FixLeavesStart(l.s, op.fix, op.now);
      ElapsedGrows(l.s.startedUs, clock, op.now);
    } else if op.Position? {
      FixLeavesStart(l.s, op.fix, op.now);
    }
  }

  lemma {:induction false} RunKeepsClock(l: Log, ops: seq<Op>, clock: int)
    requires ClockInv(l, clock) && AllOnTime(l, ops, clock)
    ensures ClockInv(Run(l, ops), Clock(ops, clock))
    decreases |ops|
  {
    hide ClockInv, Step, OnTime;
    if ops != [] {
      StepKeepsClock(l, ops[0], clock);
      RunKeepsClock(Step(l, ops[0]), ops[1..], ClockAfter(ops[0], clock));
    }
  }

  /** In every run from power-on whose clock does not run backwards, n closed blocks have taken
      60 n seconds when a position comes, and the survey is done exactly when the blocks have
      settled: the test of the elapsed time never decides. */
  lemma TimeGateNeverDecides(ops: seq<Op>, fix: Fix, now: int, boot: int)
    requires AllOnTime(Log(BOOT, [], 0), ops, boot)
    requires var l := Run(Log(BOOT, [], 0), ops);
      l.s.mode == Collecting && Plausible(fix) && OnTime(l, Position(fix, now), Clock(ops, boot))
    ensures var l := Run(Log(BOOT, [], 0), ops);
      var ys := l.xs + [Taken(l.s, fix, now)];
      && 60 * |BlockMeans(ys)| <= Taken(l.s, fix, now).elapsed
      && (WithFix(l.s, fix, now).mode == Done <==> Settled(BlockMeans(ys), fix.cosLat))
  {
    var l, clock := Run(Log(BOOT, [], 0), ops), Clock(ops, boot);
    hide Run, AllOnTime, Step, Elapsed, StatsInv, WithFix, Settled, BlockMeans, Justified;
    BootKeepsInv(ops);
    RunKeepsClock(Log(BOOT, [], 0), ops, boot);
    ElapsedGrows(l.s.startedUs, clock, now);
    BlocksTakeTheirTime(l.s, l.xs, fix, now);
  }

  // ------------------------------------------------------------------- from start to result

  /** Latitude, longitude, height and the three deviations are what a receiver on Earth can report. */
  predicate OnEarth(fix: Fix) {
    && Square(fix.pos.lat) <= 8100.0 && Square(fix.pos.lon) <= 32400.0
    && fix.pos.height + 1000.0 >= 0.0 && fix.pos.height - 20000.0 <= 0.0
    && forall a: Axis :: 0.0 <= fix.sigma.At(a) <= 100.0
  }

  lemma WithinSquare(x: real, limit: real)
    requires limit > 0.0
    ensures Square(x) <= Square(limit) <==> -limit <= x <= limit
  {
    if x > limit {
      assert x * x > limit * limit;
    } else if x < -limit {
      assert -x * -x > limit * limit;
    } else if x >= 0.0 {
      assert x * x <= limit * x <= limit * limit;
    } else {
      assert -x * -x <= limit * -x <= limit * limit;
    }
  }

  lemma PlausibleIsOnEarth(fix: Fix)
    ensures Plausible(fix) <==> OnEarth(fix)
  {
    WithinSquare(fix.pos.lat, 90.0);
    WithinSquare(fix.pos.lon, 180.0);
    assert Square(90.0) == 8100.0 && Square(180.0) == 32400.0;
    hide Square;
    assert fix.sigma.lat == fix.sigma.At(Latitude) && fix.sigma.lon == fix.sigma.At(Longitude)
      && fix.sigma.height == fix.sigma.At(Height);
  }

  /** When the survey that runs now was started. */
  function Begun(ops: seq<Op>, start: Option<int>): Option<int>
    decreases |ops|
  {
    if ops == [] then start else Begun(ops[1..], if ops[0].Start? then Some(ops[0].now) else start)
  }

  lemma {:induction false} BegunIsStart(l: Log, ops: seq<Op>, start: Option<int>)
    requires l.s.mode == Collecting ==> start == Some(l.s.startedUs)
    ensures var l' := Run(l, ops); l'.s.mode == Collecting ==> Begun(ops, start) == Some(l'.s.startedUs)
    decreases |ops|
  {
    hide WithFix;
    if ops != [] {
      if ops[0].Position? {
        FixLeavesStart(l.s, ops[0].fix, ops[0].now);
      }
      BegunIsStart(Step(l, ops[0]), ops[1..], if ops[0].Start? then Some(ops[0].now) else start);
    }
  }

  /** In every run from power-on, a survey that collects takes in exactly the positions on Earth, each
      with the whole seconds since its own start. */
  lemma PositionTaken(ops: seq<Op>, fix: Fix, now: int)
    requires Run(Log(BOOT, [], 0), ops).s.mode == Collecting
    ensures var l, begun := Run(Log(BOOT, [], 0), ops), Begun(ops, None);
      && begun.Some?
      && (begun.value <= now < begun.value + 0x1_0000_0000 * 1_000_000 ==>
            Step(l, Position(fix, now)).xs
            == if OnEarth(fix) then l.xs + [Sample(fix.pos, fix.cosLat, (now - begun.value) / 1_000_000)] else l.xs)
  {
    BegunIsStart(Log(BOOT, [], 0), ops, None);
    PlausibleIsOnEarth(fix);
    hide Run, Begun, Plausible, OnEarth, WithFix;
  }

  predicate NoStart(ops: seq<Op>) {
    forall i | 0 <= i < |ops| :: !ops[i].Start?
  }

  /** After a reset nothing is taken in and no result delivered until the next start. */
  lemma {:induction false} ResetIsQuiet(l: Log, ops: seq<Op>)
    requires NoStart(ops) && l.s.mode == Idle && !l.s.pending && l.s.report == NO_REPORT
    ensures var l' := Run(l, ops);
      l'.xs == l.xs && l'.delivered == l.delivered && l'.s.mode == Idle && l'.s.report == NO_REPORT
    decreases |ops|
  {
    if ops != [] {
      ResetIsQuiet(Step(l, ops[0]), ops[1..]);
    }
  }

  lemma AfterReset(l: Log, ops: seq<Op>)
    requires NoStart(ops)
    ensures var l' := Run(Step(l, Reset), ops);
      l'.xs == l.xs && l'.delivered == l.delivered && l'.s.mode == Idle && l'.s.report == NO_REPORT
  {
    hide Run;
    ResetIsQuiet(Step(l, Reset), ops);
  }

  /** A start collects from nothing, and the position that settles the survey has its result delivered
      to the next caller who asks, once. */
  lemma ResultIsDelivered(l: Log, fix: Fix, now: int)
    requires Inv(l) && l.s.mode == Collecting && Plausible(fix)
    requires Settled(BlockMeans(l.xs + [Taken(l.s, fix, now)]), fix.cosLat) && Taken(l.s, fix, now).elapsed >= 300
    ensures Step(l, Start(now)).s.mode == Collecting && Step(l, Start(now)).xs == []
    ensures var done := Step(l, Position(fix, now));
      && done.s.mode == Done && Step(done, Take).delivered == 1
      && Step(Step(done, Take), Take) == Step(done, Take)
  {
    hide StatsInv, Justified, WithFix, Plausible, Settled, BlockMeans;
    FixIsJustified(l.s, l.xs, fix, now);
  }

  // ------------------------------------------------------------------------- the object

  class SurveyManager {
    var mode: Mode
    var startedUs: int
    var pending: bool
    var report: Report
    var samples: nat
    var mean: Triple
    var m2: Triple
    var blockIndex: Option<nat>
    var blockSamples: nat
    var blockSum: Triple
    var blockCount: nat
    var blockMean: Triple
    var blockM2: Triple

    ghost function OpenBlocks(): Blocks
      reads this
    {
      Blocks(blockIndex, blockSamples, blockSum, blockCount, Stats(blockMean, blockM2))
    }

    ghost function Abstract(): State
      reads this
    {
      State.State(mode, startedUs, pending, report, samples, Stats(mean, m2), OpenBlocks())
    }

    constructor ()
      ensures Abstract() == BOOT
    {
      mode, startedUs, pending, report := Idle, 0, false, NO_REPORT;
      samples, mean, m2 := 0, ORIGIN, ORIGIN;
      blockIndex, blockSamples, blockSum := None, 0, ORIGIN;
      blockCount, blockMean, blockM2 := 0, ORIGIN, ORIGIN;
    }

    method Start(now: int)
      modifies this
      ensures Abstract() == Started(now)
    {
      mode, startedUs, pending, report := Collecting, now, false, NO_REPORT;
      samples, mean, m2 := 0, ORIGIN, ORIGIN;
      blockIndex, blockSamples, blockSum := None, 0, ORIGIN;
      blockCount, blockMean, blockM2 := 0, ORIGIN, ORIGIN;
    }

    method Reset()
      modifies this
      ensures Abstract() == WhenReset(old(Abstract()))
    {
      mode, report, pending := Idle, NO_REPORT, false;
    }

    method CommitBlock()
      modifies this`blockSamples, this`blockSum, this`blockCount, this`blockMean, this`blockM2
      ensures OpenBlocks() == Committed(old(OpenBlocks()))
    {
      hide UpdateMean, UpdateM2;
      if blockSamples == 0 {
        return;
      }
      var p := Divide(blockSum, blockSamples);
      blockCount := blockCount + 1;
      var st := Update(p, blockCount, Stats(blockMean, blockM2));
      blockMean, blockM2 := st.mean, st.m2;
      blockSamples := 0;
      blockSum := ORIGIN;
    }

    method TakePosition(fix: Fix, now: int)
      modifies this
      ensures Abstract() == WithFix(old(Abstract()), fix, now)
    {
      hide UpdateMean, UpdateM2, Elapsed, Variance, Add, Committed;
      if mode != Collecting || !Plausible(fix) {
        return;
      }
      hide Plausible;
      samples := samples + 1;
      var st := Update(fix.pos, samples, Stats(mean, m2));
      hide Update;
      mean, m2 := st.mean, st.m2;
      var elapsed := Elapsed(startedUs, now);
      var next := elapsed / BLOCK_TIME_SEC;
      if blockIndex.None? {
        blockIndex := Some(next);
      } else if blockIndex.value != next {
        CommitBlock();
        blockIndex := Some(next);
      }
      blockSum := Add(blockSum, fix.pos);
      blockSamples := blockSamples + 1;
      ghost var b := OpenBlocks();
      assert b == IntoBlock(old(OpenBlocks()), fix.pos, next);
      var stats := Stats(blockMean, blockM2);
      var variance := Variance(Blocks(blockIndex, blockSamples, blockSum, blockCount, stats), fix.cosLat);
      var stable := blockCount >= 2 && variance.lat + variance.lon + variance.height <= Square(MAX_STABILITY_M);
      if elapsed >= MIN_TIME_SEC && blockCount >= MIN_BLOCKS && stable {
        report := Report(mean, variance, elapsed);
        mode := Done;
        pending := true;
      }
    }

    method TakeCompletedResult() returns (r: Option<Report>)
      modifies this`pending
      ensures r == (if old(pending) then Some(old(report)) else None)
      ensures Abstract() == Step(Log(old(Abstract()), [], 0), Take).s
    {
      if !pending {
        return None;
      }
      r := Some(report);
      pending := false;
    }
  }
}
