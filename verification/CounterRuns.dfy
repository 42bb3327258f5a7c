/**
 * The true history behind the samples. Two state machines, for the two kinds of counters that
 * dashboards/builder/clickhouse.py distinguishes: a sum over entries that are evicted and admitted
 * again (on_reset="ignore"), and a single counter that is reset (on_reset="value").
 */
module CounterRuns {
  import opened Counters
  import opened Text

  // ---------------------------------------------------------------- sums over entries that come and go

  /** An increment of an absent entry admits it again, starting from zero. */
  datatype EntryEvent = Increment(entry: nat, amount: real) | Evict(entry: nat) | TakeSample

  /**
   * gained:  true increments since the first sample; gainedAtSample: those until the last sample.
   * window*: increments, and counts lost with evicted entries, since the last sample.
   * exact:   no stretch between two samples had both.
   */
  datatype EntryState = EntryState(
    entries: seq<Option<real>>,
    samples: seq<real>,
    gained: real,
    gainedAtSample: real,
    windowGain: real,
    windowEvicted: real,
    exact: bool)

  function Count(e: Option<real>): real {
    if e.Some? then e.value else 0.0
  }

  /** What the totals and mask queries report: the sum over the entries that are present. */
  function Sampled(entries: seq<Option<real>>): real {
    if entries == [] then 0.0 else Count(entries[0]) + Sampled(entries[1..])
  }

  ghost predicate ValidEvents(n: nat, events: seq<EntryEvent>) {
    forall i :: 0 <= i < |events| ==> ValidEvent(n, events[i])
  }

  predicate ValidEvent(n: nat, e: EntryEvent) {
    match e
    case Increment(entry, amount) => entry < n && amount >= 0.0
    case Evict(entry) => entry < n
    case TakeSample => true
  }

  function Happen(s: EntryState, e: EntryEvent): EntryState
    requires ValidEvent(|s.entries|, e)
  {
    match e
    case Increment(entry, amount) =>
      var started := s.samples != [];
      s.(entries := s.entries[entry := Some(Count(s.entries[entry]) + amount)],
         gained := if started then s.gained + amount else 0.0,
         windowGain := if started then s.windowGain + amount else 0.0)
    case Evict(entry) =>
      s.(entries := s.entries[entry := None],
         windowEvicted := if s.samples != [] then s.windowEvicted + Count(s.entries[entry]) else 0.0)
    case TakeSample =>
      s.(samples := s.samples + [Sampled(s.entries)],
         gainedAtSample := s.gained, windowGain := 0.0, windowEvicted := 0.0,
         exact := s.exact && (s.windowGain == 0.0 || s.windowEvicted == 0.0))
  }

  /** A run over `n` possible entries, none of them present at first. */
  ghost function Run(n: nat, events: seq<EntryEvent>): (s: EntryState)
    requires ValidEvents(n, events)
    ensures |s.entries| == n
  {
    if events == [] then EntryState(seq(n, _ => None), [], 0.0, 0.0, 0.0, 0.0, true)
    else Happen(Run(n, events[..|events| - 1]), events[|events| - 1])
  }

  lemma {:induction false} SampledUpdate(entries: seq<Option<real>>, i: nat, e: Option<real>)
    requires i < |entries|
    ensures Sampled(entries[i := e]) == Sampled(entries) - Count(entries[i]) + Count(e)
  {
    if i > 0 {
      SampledUpdate(entries[1..], i - 1, e);
      assert entries[i := e][1..] == entries[1..][i - 1 := e];
    } else {
      assert entries[i := e][1..] == entries[1..];
    }
  }

  // ---- what the state records, from the events themselves

  ghost predicate Unsampled(events: seq<EntryEvent>) {
    forall i :: 0 <= i < |events| ==> events[i] != TakeSample
  }

  ghost predicate Unevicted(events: seq<EntryEvent>, entry: nat) {
    forall i :: 0 <= i < |events| ==> events[i] != Evict(entry)
  }

  /** The sum of all increments. */
  function Amounts(events: seq<EntryEvent>): real {
    if events == [] then 0.0
    else
      var e := events[|events| - 1];
      Amounts(events[..|events| - 1]) + (if e.Increment? then e.amount else 0.0)
  }

  /** The sum of the increments of one entry. */
  function AmountsOf(events: seq<EntryEvent>, entry: nat): real {
    if events == [] then 0.0
    else
      var e := events[|events| - 1];
      AmountsOf(events[..|events| - 1], entry) + (if e.Increment? && e.entry == entry then e.amount else 0.0)
  }

  lemma {:induction false} RunLast(n: nat, before: seq<EntryEvent>, after: seq<EntryEvent>)
    requires ValidEvents(n, before + after) && after != []
    ensures var init, e := after[..|after| - 1], after[|after| - 1];
            && ValidEvents(n, before + init) && ValidEvent(n, e)
            && Run(n, before + after) == Happen(Run(n, before + init), e)
  {
    var init, e := after[..|after| - 1], after[|after| - 1];
    assert (before + after)[..|before + after| - 1] == before + init;
    assert (before + after)[|before + after| - 1] == e;
    assert forall i :: 0 <= i < |before + init| ==> (before + init)[i] == (before + after)[i];
  }

  lemma ValidParts(n: nat, before: seq<EntryEvent>, after: seq<EntryEvent>)
    requires ValidEvents(n, before + after)
    ensures ValidEvents(n, before)
  {
    assert forall i :: 0 <= i < |before| ==> before[i] == (before + after)[i];
  }

  /** Before the first sample nothing is recorded as gained. */
  lemma {:induction false} NothingGained(n: nat, events: seq<EntryEvent>)
    requires ValidEvents(n, events) && Unsampled(events)
    ensures var s := Run(n, events);
            s.samples == [] && s.gained == s.gainedAtSample == s.windowGain == s.windowEvicted == 0.0
  {
    if events != [] {
      NothingGained(n, events[..|events| - 1]);
      assert events[|events| - 1] != TakeSample;
    }
  }

  /** A sample is the sum over the present entries, and closes the stretch since the one before. */
  lemma {:induction false} SampleTaken(n: nat, before: seq<EntryEvent>)
    requires ValidEvents(n, before + [TakeSample])
    ensures ValidEvents(n, before)
    ensures var s, t := Run(n, before), Run(n, before + [TakeSample]);
            && t.samples == s.samples + [Sampled(s.entries)] && t.entries == s.entries
            && t.gained == t.gainedAtSample == s.gained && t.windowGain == 0.0
  {
    assert (before + [TakeSample])[..|before|] == before;
    ValidParts(n, before, [TakeSample]);
  }

  /** After a sample every increment is recorded, and nothing else. */
  lemma {:induction false} GainedSince(n: nat, before: seq<EntryEvent>, after: seq<EntryEvent>)
    requires ValidEvents(n, before + after) && ValidEvents(n, before) && Run(n, before).samples != []
    ensures Run(n, before + after).samples != []
    ensures Run(n, before + after).gained == Run(n, before).gained + Amounts(after)
    ensures Unsampled(after) ==>
              && Run(n, before + after).gainedAtSample == Run(n, before).gainedAtSample
              && Run(n, before + after).windowGain == Run(n, before).windowGain + Amounts(after)
              && Run(n, before + after).samples == Run(n, before).samples
    decreases |after|
  {
    if after == [] {
      assert before + after == before;
    } else {
      RunLast(n, before, after);
      GainedSince(n, before, after[..|after| - 1]);
      assert Unsampled(after) ==> after[|after| - 1] != TakeSample;
    }
  }

  /**
   * The true increments: `gained` is the sum of all increments since the first sample, `gainedAtSample` of those
   * between the first and the last one.
   */
  lemma {:induction false} TrueIncrements(n: nat, start: seq<EntryEvent>, mid: seq<EntryEvent>, rest: seq<EntryEvent>)
    requires ValidEvents(n, ((start + [TakeSample]) + (mid + [TakeSample])) + rest)
    requires Unsampled(start) && Unsampled(rest)
    ensures var s := Run(n, ((start + [TakeSample]) + (mid + [TakeSample])) + rest);
            && s.gainedAtSample == Amounts(mid) && s.gained == Amounts(mid) + Amounts(rest)
            && s.windowGain == Amounts(rest)
  {
    var first, second := start + [TakeSample], (start + [TakeSample]) + (mid + [TakeSample]);
    ValidParts(n, second, rest);
    ValidParts(n, first, mid + [TakeSample]);
    SampleTaken(n, start);
    NothingGained(n, start);
    assert second == (first + mid) + [TakeSample];
    SampleTaken(n, first + mid);
    GainedSince(n, first, mid);
    GainedSince(n, second, rest);
  }

  /** An entry holds its increments since it was last evicted, or since the start. */
  lemma {:induction false} EntrySince(n: nat, before: seq<EntryEvent>, after: seq<EntryEvent>, entry: nat)
    requires ValidEvents(n, before + after) && ValidEvents(n, before) && entry < n && Unevicted(after, entry)
    ensures Count(Run(n, before + after).entries[entry]) ==
            Count(Run(n, before).entries[entry]) + AmountsOf(after, entry)
    decreases |after|
  {
    if after == [] {
      assert before + after == before;
    } else {
      RunLast(n, before, after);
      EntrySince(n, before, after[..|after| - 1], entry);
      assert after[|after| - 1] != Evict(entry);
    }
  }

  lemma {:induction false} EntryEvicted(n: nat, before: seq<EntryEvent>, after: seq<EntryEvent>, entry: nat)
    requires ValidEvents(n, (before + [Evict(entry)]) + after) && entry < n && Unevicted(after, entry)
    ensures Count(Run(n, (before + [Evict(entry)]) + after).entries[entry]) == AmountsOf(after, entry)
  {
    ValidParts(n, before + [Evict(entry)], after);
    ValidParts(n, before, [Evict(entry)]);
    assert (before + [Evict(entry)])[..|before|] == before;
    EntrySince(n, before + [Evict(entry)], after, entry);
  }

  lemma {:induction false} EntryKept(n: nat, events: seq<EntryEvent>, entry: nat)
    requires ValidEvents(n, events) && entry < n && Unevicted(events, entry)
    ensures Count(Run(n, events).entries[entry]) == AmountsOf(events, entry)
  {
    assert [] + events == events;
    EntrySince(n, [], events, entry);
  }

  ghost predicate Sane(s: EntryState) {
    && (forall i :: 0 <= i < |s.entries| ==> Count(s.entries[i]) >= 0.0)
    && s.windowGain >= 0.0 && s.windowEvicted >= 0.0
    && s.gained == s.gainedAtSample + s.windowGain
    && (if s.samples == [] then s.gained == s.windowGain == s.windowEvicted == 0.0
        else Sampled(s.entries) == s.samples[|s.samples| - 1] + s.windowGain - s.windowEvicted)
    && Gain(Ignore, s.samples) <= s.gainedAtSample
    && (Gain(Ignore, s.samples) == s.gainedAtSample <==> s.exact)
  }

  lemma SaneStep(s: EntryState, e: EntryEvent)
    requires Sane(s) && ValidEvent(|s.entries|, e)
    ensures Sane(Happen(s, e))
  {
    match e
    case Increment(entry, amount) => SampledUpdate(s.entries, entry, Some(Count(s.entries[entry]) + amount));
    case Evict(entry) => SampledUpdate(s.entries, entry, None);
    case TakeSample =>
      assert (s.samples + [Sampled(s.entries)])[..|s.samples|] == s.samples;
  }

  lemma {:induction false} SaneRun(n: nat, events: seq<EntryEvent>)
    requires ValidEvents(n, events)
    ensures Sane(Run(n, events))
  {
    if events != [] {
      SaneRun(n, events[..|events| - 1]);
      SaneStep(Run(n, events[..|events| - 1]), events[|events| - 1]);
    }
  }

  /** The rows are the points that the run's samples have stored, in whatever order they are collected. */
  ghost predicate Stored(rows: seq<Sample>, samples: seq<real>) {
    Values(SortByTime(rows)) == samples
  }

  /**
   * Over every run, what increase(.., "ignore") reports on the sampled sums never exceeds the true
   * increments. It is exact, up to the last sample, if and only if no stretch between two samples
   * had both increments and counts lost to evictions.
   */
  lemma {:induction false} IgnoreNeverOverstates(n: nat, events: seq<EntryEvent>, rows: seq<Sample>)
    requires ValidEvents(n, events) && Stored(rows, Run(n, events).samples)
    ensures var s := Run(n, events);
            && Eval(Increase(Ignore), rows) <= s.gainedAtSample <= s.gained
            && (Eval(Increase(Ignore), rows) == s.gainedAtSample <==> s.exact)
  {
    SaneRun(n, events);
    IncreaseMeaning(Ignore, rows);
  }

  /** Every run's samples can be stored: one point per sample, at the number of the sample. */
  lemma StoredInOrder(samples: seq<real>) returns (rows: seq<Sample>)
    ensures Stored(rows, samples)
  {
    rows := seq(|samples|, i requires 0 <= i < |samples| => Sample(i, samples[i]));
    SortFixed(rows);
    assert Values(rows) == samples;
  }

  /**
   * Between two samples, counting the new value after a drop reports more than was gained exactly if the
   * drop hides the gain and leaves something behind.
   */
  lemma {:induction false} ValueOverstatesWindow(n: nat, events: seq<EntryEvent>)
    requires ValidEvents(n, events) && Run(n, events).samples != []
    ensures var s := Run(n, events);
            var last := s.samples[|s.samples| - 1];
            && Sampled(s.entries) == last + s.windowGain - s.windowEvicted
            && (Step(Value, last, Sampled(s.entries)) > s.windowGain <==> s.windowGain < s.windowEvicted < last)
  {
    SaneRun(n, events);
  }

  lemma SampledPair(a: Option<real>, b: Option<real>)
    ensures Sampled([a, b]) == Count(a) + Count(b)
  {
    assert [a, b][1..] == [b] && [b][1..] == [];
    assert Sampled([b]) == Count(b);
  }

  lemma {:induction false} RunOn(n: nat, events: seq<EntryEvent>, e: EntryEvent)
    requires ValidEvents(n, events) && ValidEvent(n, e)
    ensures ValidEvents(n, events + [e]) && Run(n, events + [e]) == Happen(Run(n, events), e)
  {
    assert (events + [e])[..|events|] == events;
  }

  lemma FirstSample() returns (events: seq<EntryEvent>)
    ensures ValidEvents(2, events)
    ensures Run(2, events) == EntryState([Some(100.0), Some(1.0)], [101.0], 0.0, 0.0, 0.0, 0.0, true)
  {
    assert Run(2, []).entries == [None, None];
    RunOn(2, [], Increment(0, 100.0));
    var one := [] + [Increment(0, 100.0)];
    assert Run(2, one) == EntryState([Some(100.0), None], [], 0.0, 0.0, 0.0, 0.0, true);
    RunOn(2, one, Increment(1, 1.0));
    var two := one + [Increment(1, 1.0)];
    assert Run(2, two) == EntryState([Some(100.0), Some(1.0)], [], 0.0, 0.0, 0.0, 0.0, true);
    RunOn(2, two, TakeSample);
    SampledPair(Some(100.0), Some(1.0));
    events := two + [TakeSample];
    assert Run(2, events).samples == [101.0];
  }

  /** Counting the new value instead can report everything that was ever counted as an increase. */
  lemma ValueOverstatesOnEvictions() returns (events: seq<EntryEvent>, rows: seq<Sample>)
    ensures ValidEvents(2, events) && Stored(rows, Run(2, events).samples)
    ensures Run(2, events).gained == 0.0 && Eval(Increase(Value), rows) == 100.0
  {
    var first := FirstSample();
    RunOn(2, first, Evict(1));
    RunOn(2, first + [Evict(1)], TakeSample);
    SampledPair(Some(100.0), None);
    events := first + [Evict(1)] + [TakeSample];
    var s := Run(2, events);
    assert Run(2, first + [Evict(1)]).entries == [Some(100.0), None];
    assert s.samples == [101.0, 100.0] && s.gained == 0.0;
    rows := StoredInOrder(s.samples);
    IncreaseMeaning(Value, rows);
    assert [101.0, 100.0][..1] == [101.0];
    assert Gain(Value, [101.0]) == 0.0;
  }

  // ---------------------------------------------------------------- one counter with resets

  datatype CounterEvent = Add(amount: real) | Reset | Read

  /**
   * lost: increments that no sample has seen because a reset came first, since the last sample.
   * wasReset: there was a reset since the last sample.
   * exact: every stretch with a reset lost nothing, and was recognisable: the sample after it is
   *        below the previous one (or the previous one was zero).
   */
  datatype CounterState = CounterState(
    value: real,
    samples: seq<real>,
    gained: real,
    gainedAtSample: real,
    lost: real,
    wasReset: bool,
    exact: bool)

  predicate ValidAdd(e: CounterEvent) {
    e.Add? ==> e.amount >= 0.0
  }

  function LastOr(samples: seq<real>, default: real): real {
    if samples == [] then default else samples[|samples| - 1]
  }

  function HappenTo(s: CounterState, e: CounterEvent): CounterState {
    var last := LastOr(s.samples, 0.0);
    match e
    case Add(amount) => s.(value := s.value + amount, gained := if s.samples != [] then s.gained + amount else 0.0)
    case Reset =>
      s.(value := 0.0, wasReset := true,
         lost := if s.samples == [] then 0.0 else s.lost + (if s.wasReset then s.value else s.value - last))
    case Read =>
      s.(samples := s.samples + [s.value], gainedAtSample := s.gained, lost := 0.0, wasReset := false,
         exact := s.exact && (s.samples != [] && s.wasReset ==> s.lost == 0.0 && (s.value < last || last == 0.0)))
  }

  ghost function RunCounter(events: seq<CounterEvent>): CounterState {
    if events == [] then CounterState(0.0, [], 0.0, 0.0, 0.0, false, true)
    else HappenTo(RunCounter(events[..|events| - 1]), events[|events| - 1])
  }

  // ---- what the state records, from the events themselves

  ghost predicate Unread(events: seq<CounterEvent>) {
    forall i :: 0 <= i < |events| ==> events[i] != Read
  }

  ghost predicate NoReset(events: seq<CounterEvent>) {
    forall i :: 0 <= i < |events| ==> events[i] != Reset
  }

  /** The sum of all increments. */
  function Added(events: seq<CounterEvent>): real {
    if events == [] then 0.0
    else
      var e := events[|events| - 1];
      Added(events[..|events| - 1]) + (if e.Add? then e.amount else 0.0)
  }

  lemma {:induction false} CounterLast(before: seq<CounterEvent>, after: seq<CounterEvent>)
    requires after != []
    ensures RunCounter(before + after) == HappenTo(RunCounter(before + after[..|after| - 1]), after[|after| - 1])
  {
    var init, e := after[..|after| - 1], after[|after| - 1];
    assert (before + after)[..|before + after| - 1] == before + init;
    assert (before + after)[|before + after| - 1] == e;
  }

  lemma {:induction false} NothingAdded(events: seq<CounterEvent>)
    requires Unread(events)
    ensures var s := RunCounter(events); s.samples == [] && s.gained == s.gainedAtSample == 0.0
  {
    if events != [] {
      NothingAdded(events[..|events| - 1]);
      assert events[|events| - 1] != Read;
    }
  }

  /** A sample is the counter's value. */
  lemma {:induction false} ValueRead(before: seq<CounterEvent>)
    ensures var s, t := RunCounter(before), RunCounter(before + [Read]);
            t.samples == s.samples + [s.value] && t.value == s.value && t.gained == t.gainedAtSample == s.gained
  {
    assert (before + [Read])[..|before|] == before;
  }

  lemma {:induction false} AddedSince(before: seq<CounterEvent>, after: seq<CounterEvent>)
    requires RunCounter(before).samples != []
    ensures RunCounter(before + after).samples != []
    ensures RunCounter(before + after).gained == RunCounter(before).gained + Added(after)
    ensures Unread(after) ==> RunCounter(before + after).gainedAtSample == RunCounter(before).gainedAtSample
                              && RunCounter(before + after).samples == RunCounter(before).samples
    decreases |after|
  {
    if after == [] {
      assert before + after == before;
    } else {
      CounterLast(before, after);
      AddedSince(before, after[..|after| - 1]);
      assert Unread(after) ==> after[|after| - 1] != Read;
    }
  }

  /** As for entries: all increments since the first sample, and those between the first and the last one. */
  lemma {:induction false} TrueAdditions(start: seq<CounterEvent>, mid: seq<CounterEvent>, rest: seq<CounterEvent>)
    requires Unread(start) && Unread(rest)
    ensures var s := RunCounter(((start + [Read]) + (mid + [Read])) + rest);
            s.gainedAtSample == Added(mid) && s.gained == Added(mid) + Added(rest)
  {
    var first, second := start + [Read], (start + [Read]) + (mid + [Read]);
    ValueRead(start);
    NothingAdded(start);
    assert second == (first + mid) + [Read];
    ValueRead(first + mid);
    AddedSince(first, mid);
    AddedSince(second, rest);
  }

  /** The counter holds its increments since it was last reset, or since the start. */
  lemma {:induction false} ValueSince(before: seq<CounterEvent>, after: seq<CounterEvent>)
    requires NoReset(after)
    ensures RunCounter(before + after).value == RunCounter(before).value + Added(after)
    decreases |after|
  {
    if after == [] {
      assert before + after == before;
    } else {
      CounterLast(before, after);
      ValueSince(before, after[..|after| - 1]);
      assert after[|after| - 1] != Reset;
    }
  }

  lemma {:induction false} ValueIs(before: seq<CounterEvent>, after: seq<CounterEvent>)
    requires NoReset(after)
    ensures RunCounter((before + [Reset]) + after).value == Added(after) && RunCounter(after).value == Added(after)
  {
    assert (before + [Reset])[..|before|] == before;
    ValueSince(before + [Reset], after);
    assert [] + after == after;
    ValueSince([], after);
  }

  ghost predicate SaneCounter(s: CounterState) {
    var last := LastOr(s.samples, 0.0);
    var windowGain := s.gained - s.gainedAtSample;
    && s.value >= 0.0 && s.lost >= 0.0 && last >= 0.0
    && (if s.samples == [] then s.gained == s.gainedAtSample == 0.0
        else if s.wasReset then windowGain == s.lost + s.value
        else s.value == last + windowGain && s.value >= last && s.lost == 0.0)
    && Gain(Value, s.samples) <= s.gainedAtSample <= s.gained
    && (Gain(Value, s.samples) == s.gainedAtSample <==> s.exact)
  }

  lemma SaneCounterStep(s: CounterState, e: CounterEvent)
    requires SaneCounter(s) && ValidAdd(e)
    ensures SaneCounter(HappenTo(s, e))
  {
    if e == Read {
      assert (s.samples + [s.value])[..|s.samples|] == s.samples;
    }
  }

  lemma {:induction false} SaneCounterRun(events: seq<CounterEvent>)
    requires forall i :: 0 <= i < |events| ==> ValidAdd(events[i])
    ensures SaneCounter(RunCounter(events))
  {
    if events != [] {
      SaneCounterRun(events[..|events| - 1]);
      SaneCounterStep(RunCounter(events[..|events| - 1]), events[|events| - 1]);
    }
  }

  /**
   * Over every run of one counter with resets, increase(.., "value") never exceeds the true
   * increments. It is exact, up to the last sample, if and only if every stretch with a reset lost
   * no unsampled increments and its sample fell below the previous one (or that one was zero).
   */
  lemma {:induction false} ValueNeverOverstates(events: seq<CounterEvent>, rows: seq<Sample>)
    requires forall i :: 0 <= i < |events| ==> ValidAdd(events[i])
    requires Stored(rows, RunCounter(events).samples)
    ensures var s := RunCounter(events);
            && Eval(Increase(Value), rows) <= s.gainedAtSample <= s.gained
            && (Eval(Increase(Value), rows) == s.gainedAtSample <==> s.exact)
  {
    SaneCounterRun(events);
    IncreaseMeaning(Value, rows);
  }
}
