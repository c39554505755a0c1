/**
  The pulse analyser: statistics of a byte stream kept up to date chunk by chunk, counted in blocks of 32 where the
  machine has wide registers. However the stream is cut, the result is the statistics of the whole stream.
 */
module Pulse {
  import opened Bytes

  datatype LogicLevel = Low | High | Uncertain

  /** 0xFF is uncertain; of any other byte the lowest bit decides. */
  function Classify(signal: byte): LogicLevel {
    if signal == 0xFF then Uncertain else if signal % 2 == 1 then High else Low
  }

  datatype Stats = Stats(samples: nat, highCount: nat, lowCount: int, uncertainCount: nat,
                         risingEdges: nat, fallingEdges: nat, toggles: nat,
                         longestHighStreak: nat, longestLowStreak: nat)

  datatype State = State(stats: Stats, havePrev: bool, prev: LogicLevel, highStreak: nat, lowStreak: nat)

  const NO_STATS: Stats := Stats(0, 0, 0, 0, 0, 0, 0, 0, 0)
  const START: State := State(NO_STATS, false, Uncertain, 0, 0)

  // The analysis, one sample at a time.

  function CountOne(s: State, level: LogicLevel): State {
    var t := s.(stats := s.stats.(samples := s.stats.samples + 1));
    match level
    case High => t.(stats := t.stats.(highCount := t.stats.highCount + 1))
    case Low => t.(stats := t.stats.(lowCount := t.stats.lowCount + 1))
    case Uncertain => t.(stats := t.stats.(uncertainCount := t.stats.uncertainCount + 1))
  }

  function Max(a: nat, b: nat): nat {
    if a > b then a else b
  }

  function Streaks(s: State, level: LogicLevel): State {
    match level
    case High =>
      s.(highStreak := s.highStreak + 1, lowStreak := 0,
         stats := s.stats.(longestHighStreak := Max(s.highStreak + 1, s.stats.longestHighStreak)))
    case Low =>
      s.(lowStreak := s.lowStreak + 1, highStreak := 0,
         stats := s.stats.(longestLowStreak := Max(s.lowStreak + 1, s.stats.longestLowStreak)))
    case Uncertain => s.(highStreak := 0, lowStreak := 0)
  }

  function Edges(s: State, level: LogicLevel): State {
    var rises := s.havePrev && s.prev == Low && level == High;
    var falls := s.havePrev && s.prev == High && level == Low;
    s.(havePrev := true, prev := level,
       stats := s.stats.(toggles := s.stats.toggles + (if rises || falls then 1 else 0),
                         risingEdges := s.stats.risingEdges + (if rises then 1 else 0),
                         fallingEdges := s.stats.fallingEdges + (if falls then 1 else 0)))
  }

  function Follow(s: State, level: LogicLevel): State {
    Edges(Streaks(s, level), level)
  }

  /** Transitions and streaks of all of data. */
  function Followed(s: State, data: seq<byte>): State {
    if |data| == 0 then s else Follow(Followed(s, data[..|data| - 1]), Classify(data[|data| - 1]))
  }

  /** Everything. */
  function Feed(s: State, data: seq<byte>): State {
    if |data| == 0 then s
    else
      var level := Classify(data[|data| - 1]);
      Follow(CountOne(Feed(s, data[..|data| - 1]), level), level)
  }

  // In the analyser's order: count the whole chunk first, then follow it.

  function Count(data: seq<byte>, level: LogicLevel): (n: nat) {
    if |data| == 0 then 0
    else Count(data[..|data| - 1], level) + (if Classify(data[|data| - 1]) == level then 1 else 0)
  }

  function Counted(s: State, data: seq<byte>): State {
    s.(stats := s.stats.(samples := s.stats.samples + |data|,
                         highCount := s.stats.highCount + Count(data, High),
                         lowCount := s.stats.lowCount + Count(data, Low),
                         uncertainCount := s.stats.uncertainCount + Count(data, Uncertain)))
  }

  lemma {:induction false} FollowCommutes(s: State, next: LogicLevel, level: LogicLevel)
    ensures Follow(CountOne(s, level), next) == CountOne(Follow(s, next), level)
  {
  }

  lemma {:induction false} CountCommutes(s: State, data: seq<byte>, level: LogicLevel)
    ensures Followed(CountOne(s, level), data) == CountOne(Followed(s, data), level)
    decreases |data|
  {
    if |data| > 0 {
      CountCommutes(s, data[..|data| - 1], level);
      FollowCommutes(Followed(s, data[..|data| - 1]), Classify(data[|data| - 1]), level);
    }
  }

  lemma {:induction false} CountFirst(s: State, data: seq<byte>)
    ensures Followed(Counted(s, data), data) == Feed(s, data)
    decreases |data|
  {
    if |data| > 0 {
      var front, level := data[..|data| - 1], Classify(data[|data| - 1]);
      CountFirst(s, front);
      CountCommutes(Counted(s, front), front, level);
      assert Counted(s, data) == CountOne(Counted(s, front), level);
    }
  }

  lemma {:induction false} CountConcat(a: seq<byte>, b: seq<byte>, level: LogicLevel)
    ensures Count(a + b, level) == Count(a, level) + Count(b, level)
    decreases |b|
  {
    if |b| == 0 {
      assert a + b == a;
    } else {
      assert (a + b)[..|a + b| - 1] == a + b[..|b| - 1];
      CountConcat(a, b[..|b| - 1], level);
    }
  }

  lemma {:induction false} CountTotal(data: seq<byte>)
    ensures Count(data, High) + Count(data, Low) + Count(data, Uncertain) == |data|
    decreases |data|
  {
    if |data| > 0 {
      CountTotal(data[..|data| - 1]);
    }
  }

  // Blocks of 32.

  type Mask = seq<bool>

  function PopCount(mask: Mask): (n: nat) {
    if |mask| == 0 then 0 else PopCount(mask[..|mask| - 1]) + (if mask[|mask| - 1] then 1 else 0)
  }

  function LowBits(block: seq<byte>): (m: Mask)
    ensures |m| == |block|
  {
    seq(|block|, k requires 0 <= k < |block| => block[k] % 2 == 1)
  }

  function AllOnes(block: seq<byte>): (m: Mask)
    ensures |m| == |block|
  {
    seq(|block|, k requires 0 <= k < |block| => block[k] == 0xFF)
  }

  /** The masks count each uncertain byte twice, once as high. */
  lemma {:induction false} MasksCount(block: seq<byte>)
    ensures PopCount(LowBits(block)) == Count(block, High) + Count(block, Uncertain)
    ensures PopCount(AllOnes(block)) == Count(block, Uncertain)
    decreases |block|
  {
    if |block| > 0 {
      var front := block[..|block| - 1];
      MasksCount(front);
      assert LowBits(block)[..|block| - 1] == LowBits(front);
      assert AllOnes(block)[..|block| - 1] == AllOnes(front);
    }
  }

  /** stats with the first n samples counted as high or uncertain. */
  ghost predicate CountedSoFar(stats: Stats, before: Stats, data: seq<byte>, n: nat) {
    && n <= |data|
    && stats == before.(highCount := before.highCount + Count(data[..n], High),
                        lowCount := stats.lowCount,
                        uncertainCount := before.uncertainCount + Count(data[..n], Uncertain))
  }

  lemma {:induction false} CountMore(stats: Stats, before: Stats, data: seq<byte>, n: nat, m: nat)
    requires CountedSoFar(stats, before, data, n) && n <= m <= |data|
    ensures CountedSoFar(stats.(highCount := stats.highCount + Count(data[n..m], High),
                                uncertainCount := stats.uncertainCount + Count(data[n..m], Uncertain)),
                         before, data, m)
  {
    assert data[..m] == data[..n] + data[n..m];
    CountConcat(data[..n], data[n..m], High);
    CountConcat(data[..n], data[n..m], Uncertain);
  }

  class PulseFlowAnalyzer {
    /** Whether counting goes by blocks of 32. */
    const avx2: bool
    var stats: Stats
    var havePrev: bool
    var prev: LogicLevel
    var currentHighStreak: nat
    var currentLowStreak: nat

    ghost function View(): State
      reads this
    {
      State(stats, havePrev, prev, currentHighStreak, currentLowStreak)
    }

    /** Every sample is counted once. */
    ghost predicate Valid()
      reads this
    {
      stats.highCount + stats.lowCount + stats.uncertainCount == stats.samples
    }

    constructor (avx2: bool)
      ensures View() == START && Valid() && this.avx2 == avx2
    {
      this.avx2 := avx2;
      stats, havePrev, prev, currentHighStreak, currentLowStreak := NO_STATS, false, Uncertain, 0, 0;
    }

    method Reset()
      modifies this
      ensures View() == START && Valid()
    {
      stats, havePrev, prev, currentHighStreak, currentLowStreak := NO_STATS, false, Uncertain, 0, 0;
    }

    method Ingest(data: seq<byte>)
      requires Valid()
      modifies this
      ensures Valid() && View() == Feed(old(View()), data)
    {
      if |data| == 0 {
        return;
      }
      ghost var s := View();
      stats := stats.(samples := stats.samples + |data|);
      CountLevels(data);
      CountTotal(data);
      assert View() == Counted(s, data);
      CountTransitionsAndStreaks(data);
      CountFirst(s, data);
      FollowedCounts(Counted(s, data), data);
    }

    method CountLevelsScalar(data: seq<byte>)
      modifies this`stats
      ensures stats == old(stats).(highCount := old(stats).highCount + Count(data, High),
                                   lowCount := stats.lowCount,
                                   uncertainCount := old(stats).uncertainCount + Count(data, Uncertain))
    {
      for i := 0 to |data|
        invariant CountedSoFar(stats, old(stats), data, i)
      {
        CountMore(stats, old(stats), data, i, i + 1);
        var level := Classify(data[i]);
        assert data[i..i + 1] == [data[i]];
        CountSingle(data[i]);
        if level == High {
          stats := stats.(highCount := stats.highCount + 1);
        } else if level == Low {
          stats := stats.(lowCount := stats.lowCount + 1);
        } else {
          stats := stats.(uncertainCount := stats.uncertainCount + 1);
        }
      }
      assert data[..|data|] == data;
    }

    method CountLevels(data: seq<byte>)
      requires stats.highCount + stats.lowCount + stats.uncertainCount + |data| == stats.samples
      modifies this`stats
      ensures stats == old(stats).(highCount := old(stats).highCount + Count(data, High),
                                   lowCount := old(stats).lowCount + Count(data, Low),
                                   uncertainCount := old(stats).uncertainCount + Count(data, Uncertain))
    {
      if avx2 {
        var i := 0;
        while i + 31 < |data|
          invariant CountedSoFar(stats, old(stats), data, i)
          decreases |data| - i
        {
          var v := data[i..i + 32];
          var highCount: int := PopCount(LowBits(v));
          var uncertainCount := PopCount(AllOnes(v));
          MasksCount(v);
          CountMore(stats, old(stats), data, i, i + 32);
          highCount := highCount - uncertainCount;
          stats := stats.(highCount := stats.highCount + (if highCount > 0 then highCount else 0),
                          uncertainCount := stats.uncertainCount + uncertainCount);
          i := i + 32;
        }
        CountMore(stats, old(stats), data, i, |data|);
        assert data[i..|data|] == data[i..] && data[..|data|] == data;
        CountLevelsScalar(data[i..]);
      } else {
        CountLevelsScalar(data);
      }
      CountTotal(data);
      stats := stats.(lowCount := stats.samples - stats.highCount - stats.uncertainCount);
    }

    /** The streak half of the loop below. */
    method ExtendStreaks(level: LogicLevel)
      modifies this
      ensures View() == Streaks(old(View()), level)
    {
      if level == High {
        currentHighStreak := currentHighStreak + 1;
        currentLowStreak := 0;
        if currentHighStreak > stats.longestHighStreak {
          stats := stats.(longestHighStreak := currentHighStreak);
        }
      } else if level == Low {
        currentLowStreak := currentLowStreak + 1;
        currentHighStreak := 0;
        if currentLowStreak > stats.longestLowStreak {
          stats := stats.(longestLowStreak := currentLowStreak);
        }
      } else {
        currentHighStreak := 0;
        currentLowStreak := 0;
      }
    }

    /** Its transition half. */
    method CountTransition(level: LogicLevel)
      modifies this
      ensures View() == Edges(old(View()), level)
    {
      if havePrev && prev != Uncertain && level != Uncertain && prev != level {
        stats := stats.(toggles := stats.toggles + 1);
        if prev == Low && level == High {
          stats := stats.(risingEdges := stats.risingEdges + 1);
        } else if prev == High && level == Low {
          stats := stats.(fallingEdges := stats.fallingEdges + 1);
        }
      }
      prev := level;
      havePrev := true;
    }

    method CountTransitionsAndStreaks(data: seq<byte>)
      modifies this
      ensures View() == Followed(old(View()), data)
    {
      ghost var s := View();
      for i := 0 to |data|
        invariant View() == Followed(s, data[..i])
      {
        assert data[..i + 1][..i] == data[..i];
        var level := Classify(data[i]);
        ExtendStreaks(level);
        CountTransition(level);
      }
      assert data[..|data|] == data;
    }
  }

  lemma {:induction false} CountSingle(b: byte)
    ensures forall level :: Count([b], level) == if Classify(b) == level then 1 else 0
  {
    forall level ensures Count([b], level) == if Classify(b) == level then 1 else 0 {
      assert [b][..0] == [];
    }
  }

  lemma {:induction false} FollowedCounts(s: State, data: seq<byte>)
    ensures var t := Followed(s, data).stats;
      && t.samples == s.stats.samples && t.highCount == s.stats.highCount
      && t.lowCount == s.stats.lowCount && t.uncertainCount == s.stats.uncertainCount
    decreases |data|
  {
    if |data| > 0 {
      FollowedCounts(s, data[..|data| - 1]);
    }
  }

  // Chunks.

  /** Two chunks are as good as one. */
  lemma {:induction false} FeedConcat(s: State, a: seq<byte>, b: seq<byte>)
    ensures Feed(s, a + b) == Feed(Feed(s, a), b)
    decreases |b|
  {
    if |b| == 0 {
      assert a + b == a;
    } else {
      assert (a + b)[..|a + b| - 1] == a + b[..|b| - 1];
      FeedConcat(s, a, b[..|b| - 1]);
    }
  }

  function FeedAll(s: State, chunks: seq<seq<byte>>): State {
    if |chunks| == 0 then s else Feed(FeedAll(s, chunks[..|chunks| - 1]), chunks[|chunks| - 1])
  }

  /** Every way of cutting the stream gives the state of the whole stream. */
  lemma {:induction false} AnyChunking(s: State, chunks: seq<seq<byte>>)
    ensures FeedAll(s, chunks) == Feed(s, Flatten(chunks))
    decreases |chunks|
  {
    if |chunks| > 0 {
      AnyChunking(s, chunks[..|chunks| - 1]);
      FeedConcat(s, Flatten(chunks[..|chunks| - 1]), chunks[|chunks| - 1]);
    }
  }

  // What the numbers mean.

  ghost function Positions(data: seq<byte>, level: LogicLevel): set<int> {
    set i | 0 <= i < |data| && Classify(data[i]) == level
  }

  predicate Crosses(data: seq<byte>, i: int, from: LogicLevel, to: LogicLevel) {
    0 < i < |data| && Classify(data[i - 1]) == from && Classify(data[i]) == to
  }

  ghost function Crossings(data: seq<byte>, from: LogicLevel, to: LogicLevel): set<int> {
    set i | 0 < i < |data| && Crosses(data, i, from, to)
  }

  /** The samples from i up to j are all of that level. */
  ghost predicate IsRun(data: seq<byte>, level: LogicLevel, i: int, j: int) {
    0 <= i <= j <= |data| && forall k :: i <= k < j ==> Classify(data[k]) == level
  }

  ghost predicate IsLongestRun(data: seq<byte>, level: LogicLevel, n: nat) {
    && (exists i, j :: IsRun(data, level, i, j) && j - i == n)
    && (forall i, j :: IsRun(data, level, i, j) ==> j - i <= n)
  }

  /** The run that the stream ends with. */
  ghost predicate IsLastRun(data: seq<byte>, level: LogicLevel, n: nat) {
    && n <= |data| && IsRun(data, level, |data| - n, |data|)
    && (n < |data| ==> Classify(data[|data| - n - 1]) != level)
  }

  /** The statistics of a whole stream, defined without going through it. */
  ghost predicate Describes(stats: Stats, data: seq<byte>) {
    && stats.samples == |data|
    && stats.highCount == |Positions(data, High)|
    && stats.lowCount == |Positions(data, Low)|
    && stats.uncertainCount == |Positions(data, Uncertain)|
    && stats.risingEdges == |Crossings(data, Low, High)|
    && stats.fallingEdges == |Crossings(data, High, Low)|
    && stats.toggles == stats.risingEdges + stats.fallingEdges
    && IsLongestRun(data, High, stats.longestHighStreak)
    && IsLongestRun(data, Low, stats.longestLowStreak)
  }

  lemma {:induction false} PositionsGrow(data: seq<byte>, b: byte, level: LogicLevel)
    ensures |Positions(data + [b], level)| == |Positions(data, level)| + if Classify(b) == level then 1 else 0
  {
    assert Positions(data + [b], level) == Positions(data, level) + if Classify(b) == level then {|data|} else {};
  }

  lemma {:induction false} CrossingsGrow(data: seq<byte>, b: byte, from: LogicLevel, to: LogicLevel)
    ensures |Crossings(data + [b], from, to)|
         == |Crossings(data, from, to)| + if Crosses(data + [b], |data|, from, to) then 1 else 0
  {
    var more := data + [b];
    forall i | i < |data| ensures Crosses(more, i, from, to) <==> Crosses(data, i, from, to) {
    }
    assert Crossings(more, from, to)
        == Crossings(data, from, to) + if Crosses(more, |data|, from, to) then {|data|} else {};
  }

  lemma {:induction false} RunKept(data: seq<byte>, b: byte, level: LogicLevel, i: int, j: int)
    requires j <= |data|
    ensures IsRun(data + [b], level, i, j) <==> IsRun(data, level, i, j)
  {
    assert forall k :: 0 <= k < |data| ==> (data + [b])[k] == data[k];
  }

  lemma {:induction false} LastRunGrows(data: seq<byte>, b: byte, level: LogicLevel, last: nat)
    requires IsLastRun(data, level, last)
    ensures IsLastRun(data + [b], level, if Classify(b) == level then last + 1 else 0)
  {
    RunKept(data, b, level, |data| - last, |data|);
  }

  lemma {:induction false} LongestRunGrows(data: seq<byte>, b: byte, level: LogicLevel, last: nat, longest: nat)
    requires IsLastRun(data, level, last) && IsLongestRun(data, level, longest)
    ensures IsLongestRun(data + [b], level, if Classify(b) == level then Max(last + 1, longest) else longest)
  {
    var more := data + [b];
    var goal := if Classify(b) == level then Max(last + 1, longest) else longest;
    var i, j :| IsRun(data, level, i, j) && j - i == longest;
    RunKept(data, b, level, i, j);
    LastRunGrows(data, b, level, last);
    if Classify(b) == level {
      assert IsRun(more, level, |more| - (last + 1), |more|);
    }
    assert last < |data| ==> Classify(more[|data| - last - 1]) != level;
    forall i, j | IsRun(more, level, i, j) ensures j - i <= goal {
      if j <= |data| {
        RunKept(data, b, level, i, j);
      } else if i < j {
        assert Classify(more[j - 1]) == level;
      }
    }
  }

  ghost predicate CountsDescribe(stats: Stats, data: seq<byte>) {
    && stats.samples == |data|
    && stats.highCount == |Positions(data, High)|
    && stats.lowCount == |Positions(data, Low)|
    && stats.uncertainCount == |Positions(data, Uncertain)|
  }

  lemma {:induction false} FedCounts(data: seq<byte>)
    ensures CountsDescribe(Feed(START, data).stats, data)
    decreases |data|
  {
    if |data| > 0 {
      var front, b := data[..|data| - 1], data[|data| - 1];
      assert data == front + [b];
      FedCounts(front);
      PositionsGrow(front, b, High);
      PositionsGrow(front, b, Low);
      PositionsGrow(front, b, Uncertain);
    }
  }

  ghost predicate EdgesDescribe(s: State, data: seq<byte>) {
    && s.stats.risingEdges == |Crossings(data, Low, High)|
    && s.stats.fallingEdges == |Crossings(data, High, Low)|
    && s.stats.toggles == s.stats.risingEdges + s.stats.fallingEdges
    && (s.havePrev <==> |data| > 0)
    && (|data| > 0 ==> s.prev == Classify(data[|data| - 1]))
  }

  lemma {:induction false} FedEdges(data: seq<byte>)
    ensures EdgesDescribe(Feed(START, data), data)
    decreases |data|
  {
    if |data| > 0 {
      var front, b := data[..|data| - 1], data[|data| - 1];
      assert data == front + [b];
      FedEdges(front);
      CrossingsGrow(front, b, Low, High);
      CrossingsGrow(front, b, High, Low);
    }
  }

  ghost predicate StreaksDescribe(s: State, data: seq<byte>) {
    && IsLastRun(data, High, s.highStreak) && IsLongestRun(data, High, s.stats.longestHighStreak)
    && IsLastRun(data, Low, s.lowStreak) && IsLongestRun(data, Low, s.stats.longestLowStreak)
  }

  lemma {:induction false} FedStreaks(data: seq<byte>)
    ensures StreaksDescribe(Feed(START, data), data)
    decreases |data|
  {
    if |data| == 0 {
      assert IsRun(data, High, 0, 0) && IsRun(data, Low, 0, 0);
    } else {
      var front, b := data[..|data| - 1], data[|data| - 1];
      assert data == front + [b];
      var s := Feed(START, front);
      FedStreaks(front);
      LastRunGrows(front, b, High, s.highStreak);
      LastRunGrows(front, b, Low, s.lowStreak);
      LongestRunGrows(front, b, High, s.highStreak, s.stats.longestHighStreak);
      LongestRunGrows(front, b, Low, s.lowStreak, s.stats.longestLowStreak);
    }
  }

  /** The statistics kept step by step are those of the stream. */
  lemma {:induction false} FedStatistics(data: seq<byte>)
    ensures Describes(Feed(START, data).stats, data)
  {
    FedCounts(data);
    FedEdges(data);
    FedStreaks(data);
  }

  /** Rising and falling edges can differ only by what uncertain samples hide, and one. */
  lemma {:induction false} EdgeBalance(data: seq<byte>)
    ensures var s := Feed(START, data);
      && s.stats.risingEdges - s.stats.fallingEdges <= s.stats.uncertainCount + (if s.prev == High then 1 else 0)
      && s.stats.fallingEdges - s.stats.risingEdges <= s.stats.uncertainCount + (if s.prev == Low then 1 else 0)
    decreases |data|
  {
    if |data| > 0 {
      EdgeBalance(data[..|data| - 1]);
    }
  }

  /** The analyser fed chunk by chunk ends with the statistics of the joined stream. */
  method Analyze(chunks: seq<seq<byte>>, avx2: bool) returns (stats: Stats)
    ensures Describes(stats, Flatten(chunks))
    ensures stats.highCount + stats.lowCount + stats.uncertainCount == stats.samples
    ensures stats.risingEdges + stats.fallingEdges == stats.toggles
    ensures stats.risingEdges - stats.fallingEdges <= stats.uncertainCount + 1
    ensures stats.fallingEdges - stats.risingEdges <= stats.uncertainCount + 1
  {
    var a := new PulseFlowAnalyzer(avx2);
    for i := 0 to |chunks|
      invariant fresh(a) && a.Valid() && a.View() == FeedAll(START, chunks[..i])
    {
      assert chunks[..i + 1][..i] == chunks[..i];
      a.Ingest(chunks[i]);
    }
    assert chunks[..|chunks|] == chunks;
    AnyChunking(START, chunks);
    FedStatistics(Flatten(chunks));
    EdgeBalance(Flatten(chunks));
    stats := a.stats;
  }
}
