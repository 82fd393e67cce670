/** The duplex negotiation of crates/namir-app/src/device_state.rs: one rate and one buffer size for both directions. */
module DeviceState {
  import opened Numbers
  import opened Text

  // Rates and frame counts are only compared, so `nat` stands for `u32`.
  const PREFERRED_RATES: seq<nat> := [48_000, 44_100]
  const PREFERRED_FRAMES: nat := 256

  datatype Buffer = Range(min: nat, max: nat) | Unknown

  datatype Config = Config(channels: nat, minRate: nat, maxRate: nat, buffer: Buffer)

  predicate Covers(c: Config, hz: nat) {
    c.minRate <= hz <= c.maxRate
  }

  predicate AnyCovers(cs: seq<Config>, hz: nat) {
    exists i :: 0 <= i < |cs| && Covers(cs[i], hz)
  }

  // -------------------------------------------------------------------------------------------
  // Sample rates
  // -------------------------------------------------------------------------------------------

  function Highest(cs: seq<Config>): (hz: nat)
    requires cs != []
    ensures (forall i :: 0 <= i < |cs| ==> cs[i].maxRate <= hz) && exists i :: 0 <= i < |cs| && cs[i].maxRate == hz
  {
    if |cs| == 1 then cs[0].maxRate
    else
      var rest := Highest(cs[1..]);
      assert forall i :: 0 <= i < |cs| ==> cs[i] == cs[0] || exists j :: 0 <= j < |cs[1..]| && cs[1..][j] == cs[i];
      if cs[0].maxRate > rest then cs[0].maxRate else rest
  }

  /** The rates asked for before any other: the remembered one, then the preferred ones. */
  function Wanted(remembered: Option<nat>): seq<nat> {
    (if remembered.Some? then [remembered.value] else []) + PREFERRED_RATES
  }

  /** The rate is the first wanted one the device covers, or, when it covers none, its highest. */
  predicate IsChoice(cs: seq<Config>, wanted: seq<nat>, hz: nat) {
    if wanted == [] then cs != [] && hz == Highest(cs)
    else if AnyCovers(cs, wanted[0]) then hz == wanted[0]
    else IsChoice(cs, wanted[1..], hz)
  }

  function NegotiateSampleRate(cs: seq<Config>, remembered: Option<nat>): Option<nat> {
    if cs == [] then None
    else if remembered.Some? && AnyCovers(cs, remembered.value) then remembered
    else if AnyCovers(cs, PREFERRED_RATES[0]) then Some(PREFERRED_RATES[0])
    else if AnyCovers(cs, PREFERRED_RATES[1]) then Some(PREFERRED_RATES[1])
    else Some(Highest(cs))
  }

  /** One device's answer is its choice, and it has one exactly when it reports anything. */
  lemma {:induction false} SampleRateIsChoice(cs: seq<Config>, remembered: Option<nat>)
    ensures NegotiateSampleRate(cs, remembered).None? <==> cs == []
    ensures cs != [] ==> IsChoice(cs, Wanted(remembered), NegotiateSampleRate(cs, remembered).value)
  {
    if cs != [] {
      var last: seq<nat> := [44_100];
      assert PREFERRED_RATES[1..] == last && last[1..] == [];
      assert IsChoice(cs, [], Highest(cs));
      assert AnyCovers(cs, 44_100) || IsChoice(cs, last, Highest(cs));
      if remembered.Some? {
        assert Wanted(remembered)[0] == remembered.value && Wanted(remembered)[1..] == PREFERRED_RATES;
      } else {
        assert Wanted(remembered) == PREFERRED_RATES;
      }
    }
  }

  function NegotiateSharedSampleRate(input: seq<Config>, output: seq<Config>, remembered: Option<nat>): Option<nat> {
    var fromInput := NegotiateSampleRate(input, remembered);
    if fromInput.Some? && AnyCovers(output, fromInput.value) then fromInput
    else
      var fromOutput := NegotiateSampleRate(output, remembered);
      if fromOutput.Some? && AnyCovers(input, fromOutput.value) then fromOutput else None
  }

  predicate Shared(input: seq<Config>, output: seq<Config>, hz: nat) {
    AnyCovers(input, hz) && AnyCovers(output, hz)
  }

  /** A device answers with a rate it covers exactly when it covers a wanted one or the highest it reports. */
  lemma {:induction false} SampleRateIsCovered(cs: seq<Config>, remembered: Option<nat>)
    requires cs != []
    ensures AnyCovers(cs, NegotiateSampleRate(cs, remembered).value) <==>
            || (exists k :: 0 <= k < |Wanted(remembered)| && AnyCovers(cs, Wanted(remembered)[k]))
            || AnyCovers(cs, Highest(cs))
  {
    SampleRateIsChoice(cs, remembered);
    ChoiceIsCovered(cs, Wanted(remembered), NegotiateSampleRate(cs, remembered).value);
  }

  lemma {:induction false} ChoiceIsCovered(cs: seq<Config>, wanted: seq<nat>, hz: nat)
    requires IsChoice(cs, wanted, hz) && cs != []
    ensures AnyCovers(cs, hz) <==>
            (exists k :: 0 <= k < |wanted| && AnyCovers(cs, wanted[k])) || AnyCovers(cs, Highest(cs))
  {
    if wanted != [] && !AnyCovers(cs, wanted[0]) {
      ChoiceIsCovered(cs, wanted[1..], hz);
      assert forall k :: 0 < k < |wanted| ==> wanted[k] == wanted[1..][k - 1];
    }
  }

  /** No range has its ends the wrong way round. */
  predicate RatesOk(cs: seq<Config>) {
    forall i :: 0 <= i < |cs| ==> cs[i].minRate <= cs[i].maxRate
  }

  lemma {:induction false} HighestIsCovered(cs: seq<Config>)
    requires cs != [] && RatesOk(cs)
    ensures AnyCovers(cs, Highest(cs))
  {
    var i :| 0 <= i < |cs| && cs[i].maxRate == Highest(cs);
    assert Covers(cs[i], Highest(cs));
  }

  /** Both sides cover the shared rate. */
  lemma SharedRateIsShared(input: seq<Config>, output: seq<Config>, remembered: Option<nat>)
    requires RatesOk(input) && RatesOk(output)
    ensures var r := NegotiateSharedSampleRate(input, output, remembered); r.Some? ==> Shared(input, output, r.value)
  {
    if input != [] { HighestIsCovered(input); SampleRateIsCovered(input, remembered); }
    if output != [] { HighestIsCovered(output); SampleRateIsCovered(output, remembered); }
  }

  /** The side whose own choice became the shared answer. */
  function Chooser(input: seq<Config>, output: seq<Config>, remembered: Option<nat>): seq<Config> {
    var fromInput := NegotiateSampleRate(input, remembered);
    if fromInput.Some? && AnyCovers(output, fromInput.value) then input else output
  }

  /** Whatever the ranges: an answer is covered by both sides exactly when the side that chose it covers some
      wanted rate or the highest it reports. */
  lemma SharedRateIsSharedIff(input: seq<Config>, output: seq<Config>, remembered: Option<nat>)
    requires NegotiateSharedSampleRate(input, output, remembered).Some?
    ensures var cs := Chooser(input, output, remembered);
            && cs != []
            && (Shared(input, output, NegotiateSharedSampleRate(input, output, remembered).value) <==>
                (exists k :: 0 <= k < |Wanted(remembered)| && AnyCovers(cs, Wanted(remembered)[k]))
                  || AnyCovers(cs, Highest(cs)))
  {
    SampleRateIsCovered(Chooser(input, output, remembered), remembered);
  }

  /** With a range the wrong way round it need not be so. */
  lemma ReversedRangeIsNotShared()
    ensures var input, output := [Config(1, 96_000, 90_000, Unknown)], [Config(2, 88_200, 96_000, Unknown)];
            NegotiateSharedSampleRate(input, output, None) == Some(90_000) && !Shared(input, output, 90_000)
  {
    var input, output := [Config(1, 96_000, 90_000, Unknown)], [Config(2, 88_200, 96_000, Unknown)];
    assert Covers(output[0], 90_000);
  }

  /** The documentation says `None` only if no rate is shared. Here both sides cover 88200 Hz. */
  lemma SharedRateMissesOne()
    ensures var input, output := [Config(1, 44_100, 90_000, Unknown)], [Config(2, 88_200, 96_000, Unknown)];
            Shared(input, output, 88_200) && NegotiateSharedSampleRate(input, output, None) == None
  {
    var input, output := [Config(1, 44_100, 90_000, Unknown)], [Config(2, 88_200, 96_000, Unknown)];
    assert Covers(input[0], 88_200) && Covers(output[0], 88_200) && Covers(input[0], 48_000);
  }

  /** A remembered rate can hide a preferred one both sides cover. */
  lemma RememberedRateHidesOne()
    ensures var input, output := [Config(1, 44_100, 48_000, Unknown)],
                                 [Config(2, 44_100, 44_100, Unknown), Config(2, 96_000, 96_000, Unknown)];
            && Shared(input, output, 44_100)
            && NegotiateSharedSampleRate(input, output, Some(96_000)) == None
            && NegotiateSharedSampleRate(input, output, None) == Some(44_100)
  {
    var input, output := [Config(1, 44_100, 48_000, Unknown)],
                         [Config(2, 44_100, 44_100, Unknown), Config(2, 96_000, 96_000, Unknown)];
    assert Covers(input[0], 44_100) && Covers(output[0], 44_100);
    assert Covers(input[0], 48_000) && Covers(output[1], 96_000);
  }

  /** What is promised: a remembered rate both sides cover is taken; when both cover 48 kHz, or nothing is
      remembered and both cover 44.1 kHz, there is an answer. */
  lemma SharedRateIsFound(input: seq<Config>, output: seq<Config>, remembered: Option<nat>)
    ensures remembered.Some? && Shared(input, output, remembered.value) ==>
              NegotiateSharedSampleRate(input, output, remembered) == remembered
    ensures Shared(input, output, 48_000) ==> NegotiateSharedSampleRate(input, output, remembered).Some?
    ensures remembered.None? && Shared(input, output, 44_100) ==>
              NegotiateSharedSampleRate(input, output, remembered).Some?
  {
  }

  /** The side covers none of the first `k` wanted rates. */
  predicate CoversNone(cs: seq<Config>, wanted: seq<nat>, k: nat)
    requires k <= |wanted|
  {
    forall j :: 0 <= j < k ==> !AnyCovers(cs, wanted[j])
  }

  /** One side covers no wanted rate, and the other covers the highest that side reports. */
  predicate HighestMeets(cs: seq<Config>, other: seq<Config>, wanted: seq<nat>) {
    cs != [] && CoversNone(cs, wanted, |wanted|) && AnyCovers(other, Highest(cs))
  }

  /** A wanted rate is shared, and one of the sides covers no wanted rate before it. */
  predicate WantedMeets(input: seq<Config>, output: seq<Config>, wanted: seq<nat>) {
    exists k :: 0 <= k < |wanted| && WantedMeetsAt(input, output, wanted, k)
  }

  predicate WantedMeetsAt(input: seq<Config>, output: seq<Config>, wanted: seq<nat>, k: nat)
    requires k < |wanted|
  {
    Shared(input, output, wanted[k]) && (CoversNone(input, wanted, k) || CoversNone(output, wanted, k))
  }

  predicate AnswerFound(input: seq<Config>, output: seq<Config>, wanted: seq<nat>) {
    WantedMeets(input, output, wanted) || HighestMeets(input, output, wanted) || HighestMeets(output, input, wanted)
  }

  /** A choice is the first wanted rate covered, or the highest when none is. */
  lemma {:induction false} ChoiceIs(cs: seq<Config>, wanted: seq<nat>, hz: nat) returns (k: nat)
    requires IsChoice(cs, wanted, hz)
    ensures k <= |wanted| && CoversNone(cs, wanted, k)
    ensures k < |wanted| ==> AnyCovers(cs, wanted[k]) && hz == wanted[k]
    ensures k == |wanted| ==> cs != [] && hz == Highest(cs)
  {
    if wanted == [] || AnyCovers(cs, wanted[0]) {
      k := 0;
    } else {
      var rest := wanted[1..];
      k := ChoiceIs(cs, rest, hz);
      k := k + 1;
      assert forall j :: 0 < j < k ==> wanted[j] == rest[j - 1];
    }
  }

  /** What one side chooses, if the other covers it, is an answer found. */
  lemma {:induction false} ChoiceIsFound(cs: seq<Config>, other: seq<Config>, wanted: seq<nat>, hz: nat)
    requires IsChoice(cs, wanted, hz) && AnyCovers(other, hz)
    ensures AnswerFound(cs, other, wanted) && AnswerFound(other, cs, wanted)
  {
    var k := ChoiceIs(cs, wanted, hz);
    assert k < |wanted| ==> WantedMeetsAt(cs, other, wanted, k) && WantedMeetsAt(other, cs, wanted, k);
  }

  /** A covered wanted rate with none covered before it is the choice. */
  lemma {:induction false} FirstIsChoice(cs: seq<Config>, wanted: seq<nat>, hz: nat, k: nat)
    requires IsChoice(cs, wanted, hz) && k < |wanted| && AnyCovers(cs, wanted[k]) && CoversNone(cs, wanted, k)
    ensures hz == wanted[k]
  {
    var n := ChoiceIs(cs, wanted, hz);
    assert n <= k;
  }

  lemma {:induction false} HighestIsChoice(cs: seq<Config>, wanted: seq<nat>, hz: nat)
    requires IsChoice(cs, wanted, hz) && cs != [] && CoversNone(cs, wanted, |wanted|)
    ensures hz == Highest(cs)
  {
    var n := ChoiceIs(cs, wanted, hz);
  }

  /** There is an answer exactly when a wanted rate is shared that is the first one some side covers, or one
      side covers no wanted rate and the other covers the highest that side reports. */
  lemma SharedRateIff(input: seq<Config>, output: seq<Config>, remembered: Option<nat>)
    ensures NegotiateSharedSampleRate(input, output, remembered).Some? <==>
            AnswerFound(input, output, Wanted(remembered))
  {
    var wanted := Wanted(remembered);
    SampleRateIsChoice(input, remembered);
    SampleRateIsChoice(output, remembered);
    if input != [] && AnyCovers(output, NegotiateSampleRate(input, remembered).value) {
      ChoiceIsFound(input, output, wanted, NegotiateSampleRate(input, remembered).value);
    }
    if output != [] && AnyCovers(input, NegotiateSampleRate(output, remembered).value) {
      ChoiceIsFound(output, input, wanted, NegotiateSampleRate(output, remembered).value);
    }
    if AnswerFound(input, output, wanted) {
      FoundIsAnswered(input, output, remembered);
    }
  }

  lemma FoundIsAnswered(input: seq<Config>, output: seq<Config>, remembered: Option<nat>)
    requires AnswerFound(input, output, Wanted(remembered))
    ensures NegotiateSharedSampleRate(input, output, remembered).Some?
  {
    var wanted := Wanted(remembered);
    SampleRateIsChoice(input, remembered);
    SampleRateIsChoice(output, remembered);
    if k :| 0 <= k < |wanted| && WantedMeetsAt(input, output, wanted, k) {
      if CoversNone(input, wanted, k) {
        FirstIsChoice(input, wanted, NegotiateSampleRate(input, remembered).value, k);
      } else {
        FirstIsChoice(output, wanted, NegotiateSampleRate(output, remembered).value, k);
      }
    } else if HighestMeets(input, output, wanted) {
      HighestIsChoice(input, wanted, NegotiateSampleRate(input, remembered).value);
    } else {
      HighestIsChoice(output, wanted, NegotiateSampleRate(output, remembered).value);
    }
  }

  ghost predicate NothingShared(input: seq<Config>, output: seq<Config>) {
    forall hz: nat :: !Shared(input, output, hz)
  }

  /** The documented claim, `None` only where no rate is shared, holds exactly where nothing is shared or an
      answer is found; with ranges the right way round, what is found is shared. */
  lemma ClaimHoldsIff(input: seq<Config>, output: seq<Config>, remembered: Option<nat>)
    ensures (NegotiateSharedSampleRate(input, output, remembered) == None ==> NothingShared(input, output)) <==>
            NothingShared(input, output) || AnswerFound(input, output, Wanted(remembered))
    ensures RatesOk(input) && RatesOk(output) ==>
              !(NothingShared(input, output) && AnswerFound(input, output, Wanted(remembered)))
  {
    SharedRateIff(input, output, remembered);
    if RatesOk(input) && RatesOk(output) {
      SharedRateIsShared(input, output, remembered);
    }
  }

  // -------------------------------------------------------------------------------------------
  // Buffer sizes
  // -------------------------------------------------------------------------------------------

  predicate Accepts(b: Buffer, frames: nat) {
    match b
    case Range(min, max) => min <= frames <= max
    case Unknown => true
  }

  predicate AcceptsBufferSize(ranges: seq<Buffer>, frames: nat) {
    exists i :: 0 <= i < |ranges| && Accepts(ranges[i], frames)
  }

  predicate BothAccept(input: seq<Buffer>, output: seq<Buffer>, frames: nat) {
    AcceptsBufferSize(input, frames) && AcceptsBufferSize(output, frames)
  }

  /** The buffer ranges of the configurations that cover the rate. */
  function BuffersAtRate(cs: seq<Config>, hz: nat): seq<Buffer> {
    if cs == [] then []
    else (if Covers(cs[0], hz) then [cs[0].buffer] else []) + BuffersAtRate(cs[1..], hz)
  }

  function Clamp(x: nat, min: nat, max: nat): (r: nat)
    requires min <= max
  {
    if x < min then min else if x > max then max else x
  }

  /** Both ranges are known and both hold `frames`. */
  predicate Meet(i: Buffer, o: Buffer, frames: nat) {
    i.Range? && o.Range? && Accepts(i, frames) && Accepts(o, frames)
  }

  /** The frame count of the pair's intersection that is nearest the preferred one. */
  ghost predicate Nearest(i: Buffer, o: Buffer, frames: nat) {
    Meet(i, o, frames) && forall f: nat :: Meet(i, o, f) ==>
      Distance(frames, PREFERRED_FRAMES) <= Distance(f, PREFERRED_FRAMES)
  }

  function Candidate(i: Buffer, o: Buffer): (r: Option<nat>)
  {
    if !i.Range? || !o.Range? then None
    else
      var min := if i.min > o.min then i.min else o.min;
      var max := if i.max < o.max then i.max else o.max;
      if min > max then None else Some(Clamp(PREFERRED_FRAMES, min, max))
  }

  /** A pair of ranges has a candidate exactly when it meets, and the candidate is its nearest meeting point. */
  lemma CandidateIsNearest(i: Buffer, o: Buffer)
    ensures Candidate(i, o).Some? ==> Nearest(i, o, Candidate(i, o).value)
    ensures Candidate(i, o).None? ==> forall f: nat :: !Meet(i, o, f)
  {
  }

  predicate Before(a: nat, b: nat, x: nat, y: nat) {
    a < x || (a == x && b < y)
  }

  /** Wherever the pair meets is no nearer than `best`. */
  ghost predicate NoNearer(i: Buffer, o: Buffer, best: Option<nat>) {
    forall f: nat :: Meet(i, o, f) ==>
      best.Some? && Distance(best.value, PREFERRED_FRAMES) <= Distance(f, PREFERRED_FRAMES)
  }

  /** Among the pairs before (x, y), nothing is nearer than `best`, which the earliest such pair gives. */
  ghost predicate BestSoFar(input: seq<Buffer>, output: seq<Buffer>, x: nat, y: nat, best: Option<nat>) {
    && (forall i: nat, o: nat :: i < |input| && o < |output| && Before(i, o, x, y) ==>
        NoNearer(input[i], output[o], best))
    && (best.Some? ==> exists i: nat, o: nat :: i < |input| && o < |output| && Before(i, o, x, y)
                         && FirstAt(input, output, i, o, best.value))
  }

  /** Wherever the pair meets is farther than `frames`. */
  ghost predicate Farther(i: Buffer, o: Buffer, frames: nat) {
    forall f: nat :: Meet(i, o, f) ==> Distance(frames, PREFERRED_FRAMES) < Distance(f, PREFERRED_FRAMES)
  }

  /** The pair gives `frames`, and every earlier pair only what is farther from the preferred count. */
  ghost predicate FirstAt(input: seq<Buffer>, output: seq<Buffer>, x: nat, y: nat, frames: nat)
    requires x < |input| && y < |output|
  {
    && Nearest(input[x], output[y], frames)
    && forall i: nat, o: nat :: i < |input| && o < |output| && Before(i, o, x, y) ==>
       Farther(input[i], output[o], frames)
  }

  function Better(best: Option<nat>, c: Option<nat>): Option<nat> {
    if c.Some? && (best.None? || Distance(c.value, PREFERRED_FRAMES) < Distance(best.value, PREFERRED_FRAMES)) then c
    else best
  }

  lemma BestStep(input: seq<Buffer>, output: seq<Buffer>, x: nat, y: nat, best: Option<nat>)
    requires x < |input| && y < |output| && BestSoFar(input, output, x, y, best)
    ensures BestSoFar(input, output, x, y + 1, Better(best, Candidate(input[x], output[y])))
  {
    var c := Candidate(input[x], output[y]);
    var next := Better(best, c);
    CandidateIsNearest(input[x], output[y]);
    forall i: nat, o: nat | i < |input| && o < |output| && Before(i, o, x, y + 1)
      ensures NoNearer(input[i], output[o], next)
    {
      if Before(i, o, x, y) { assert NoNearer(input[i], output[o], best); }
    }
    if next.Some? {
      if next == best {
        var i: nat, o: nat :| i < |input| && o < |output| && Before(i, o, x, y)
          && FirstAt(input, output, i, o, best.value);
        assert Before(i, o, x, y + 1);
      } else {
        forall i: nat, o: nat | i < |input| && o < |output| && Before(i, o, x, y)
          ensures Farther(input[i], output[o], next.value)
        {
          assert NoNearer(input[i], output[o], best);
        }
        assert FirstAt(input, output, x, y, next.value);
        assert Before(x, y, x, y + 1);
      }
    }
  }

  lemma RowDone(input: seq<Buffer>, output: seq<Buffer>, x: nat, best: Option<nat>)
    requires x < |input| && BestSoFar(input, output, x, |output|, best)
    ensures BestSoFar(input, output, x + 1, 0, best)
  {
    forall i: nat, o: nat | i < |input| && o < |output| && Before(i, o, x + 1, 0)
      ensures NoNearer(input[i], output[o], best)
    {
      assert Before(i, o, x, |output|);
    }
    if best.Some? {
      var i: nat, o: nat :| i < |input| && o < |output| && Before(i, o, x, |output|)
        && FirstAt(input, output, i, o, best.value);
      assert Before(i, o, x + 1, 0);
    }
  }

  /** The nested loops over the pairs. */
  method BestPair(input: seq<Buffer>, output: seq<Buffer>) returns (best: Option<nat>)
    ensures BestSoFar(input, output, |input|, 0, best)
  {
    best := None;
    assert BestSoFar(input, output, 0, 0, best) by {
      assert forall i: nat, o: nat :: !Before(i, o, 0, 0);
    }
    for x := 0 to |input|
      invariant BestSoFar(input, output, x, 0, best)
    {
      for y := 0 to |output|
        invariant BestSoFar(input, output, x, y, best)
      {
        BestStep(input, output, x, y, best);
        var c := Candidate(input[x], output[y]);
        if c.Some? && (best.None? || Distance(c.value, PREFERRED_FRAMES) < Distance(best.value, PREFERRED_FRAMES)) {
          best := c;
        }
      }
      RowDone(input, output, x, best);
    }
  }

  /** Some input range and some output range, both known, hold `frames`. */
  ghost predicate Meets(input: seq<Buffer>, output: seq<Buffer>, frames: nat) {
    exists i, o :: 0 <= i < |input| && 0 <= o < |output| && Meet(input[i], output[o], frames)
  }

  /** The earliest pair of ranges whose nearest meeting point is nearest of all gives `frames`. */
  ghost predicate EarliestNearest(input: seq<Buffer>, output: seq<Buffer>, frames: nat) {
    && (exists i: nat, o: nat :: i < |input| && o < |output| && FirstAt(input, output, i, o, frames))
    && forall f: nat :: Meets(input, output, f) ==> Distance(frames, PREFERRED_FRAMES) <= Distance(f, PREFERRED_FRAMES)
  }

  lemma BestOfAll(input: seq<Buffer>, output: seq<Buffer>, best: Option<nat>)
    requires BestSoFar(input, output, |input|, 0, best)
    ensures best.Some? <==> exists f: nat :: Meets(input, output, f)
    ensures best.Some? ==> EarliestNearest(input, output, best.value)
    ensures best.Some? ==> BothAccept(input, output, best.value)
  {
    forall f: nat | Meets(input, output, f)
      ensures best.Some? && Distance(best.value, PREFERRED_FRAMES) <= Distance(f, PREFERRED_FRAMES)
    {
      var i: nat, o: nat :| i < |input| && o < |output| && Meet(input[i], output[o], f);
      assert Before(i, o, |input|, 0);
      assert NoNearer(input[i], output[o], best);
    }
    if best.Some? {
      var i: nat, o: nat :| i < |input| && o < |output| && Before(i, o, |input|, 0)
        && FirstAt(input, output, i, o, best.value);
      assert Meet(input[i], output[o], best.value);
      assert Meets(input, output, best.value);
    }
  }

  /** A size both directions accept: the remembered one where they do; otherwise there is one exactly when some
      input range meets some output range at that rate, and it is the nearest to the preferred size of all the
      meeting points. A range with its ends the wrong way round meets nothing and stops nothing. */
  method NegotiateSharedBufferSize(input: seq<Config>, output: seq<Config>, hz: nat, remembered: Option<nat>)
    returns (r: Option<nat>)
    ensures var ins, outs := BuffersAtRate(input, hz), BuffersAtRate(output, hz);
            && (r.Some? ==> BothAccept(ins, outs, r.value))
            && if remembered.Some? && BothAccept(ins, outs, remembered.value)
               then r == remembered
               else
                 && (r.Some? <==> exists f: nat :: Meets(ins, outs, f))
                 && (r.Some? ==> EarliestNearest(ins, outs, r.value))
  {
    var ins, outs := BuffersAtRate(input, hz), BuffersAtRate(output, hz);
    if ins == [] || outs == [] {
      return None;
    }
    if remembered.Some? && BothAccept(ins, outs, remembered.value) {
      return remembered;
    }
    r := BestPair(ins, outs);
    BestOfAll(ins, outs, r);
  }

  // The single direction's negotiation, whose clamp fails on a range with its ends the wrong way round.

  datatype Answer = Frames(r: Option<nat>) | Panic

  /** The remembered size is one the device accepts at the rate. */
  predicate KeepsRemembered(bs: seq<Buffer>, remembered: Option<nat>) {
    remembered.Some? && AcceptsBufferSize(bs, remembered.value)
  }

  /** The clamp fails exactly when the first range at the rate is the wrong way round and no remembered size
      is accepted; no size is answered exactly when nothing covers the rate, or that first range is unknown.
      A size that is answered is accepted; no size the first range holds is nearer to the preferred one than an
      answer that was not remembered. */
  function NegotiateBufferSize(cs: seq<Config>, hz: nat, remembered: Option<nat>): (a: Answer)
    ensures var bs := BuffersAtRate(cs, hz);
            && (KeepsRemembered(bs, remembered) ==> a == Frames(remembered))
            && (a.Panic? <==>
                bs != [] && !KeepsRemembered(bs, remembered) && bs[0].Range? && bs[0].min > bs[0].max)
            && (a == Frames(None) <==> bs == [] || (!KeepsRemembered(bs, remembered) && bs[0].Unknown?))
            && (a.Frames? && a.r.Some? ==> AcceptsBufferSize(bs, a.r.value))
            && (a.Frames? && a.r.Some? && !KeepsRemembered(bs, remembered) ==>
                  forall f: nat :: Accepts(bs[0], f) ==>
                    Distance(a.r.value, PREFERRED_FRAMES) <= Distance(f, PREFERRED_FRAMES))
  {
    var bs := BuffersAtRate(cs, hz);
    if bs == [] then Frames(None)
    else if remembered.Some? && AcceptsBufferSize(bs, remembered.value) then Frames(remembered)
    else
      match bs[0]
      case Range(min, max) =>
        if min > max then Panic
        else
          var f := Clamp(PREFERRED_FRAMES, min, max);
          assert Accepts(bs[0], f);
          Frames(Some(f))
      case Unknown => Frames(None)
  }

  /** A first range of 512 to 256 frames. */
  lemma ReversedBufferPanics()
    ensures NegotiateBufferSize([Config(1, 44_100, 48_000, Range(512, 256))], 48_000, None) == Panic
  {
    var cs := [Config(1, 44_100, 48_000, Range(512, 256))];
    assert BuffersAtRate(cs, 48_000) == [Range(512, 256)] by { assert cs[1..] == []; }
  }

  // -------------------------------------------------------------------------------------------
  // Channels
  // -------------------------------------------------------------------------------------------

  /** The channel counts of the configurations that cover the rate. */
  function ChannelsAtRate(cs: seq<Config>, hz: nat): seq<nat> {
    if cs == [] then []
    else (if Covers(cs[0], hz) then [cs[0].channels] else []) + ChannelsAtRate(cs[1..], hz)
  }

  function Largest(ns: seq<nat>): (r: Option<nat>)
    ensures r.None? <==> ns == []
    ensures r.Some? ==> r.value in ns && forall k :: 0 <= k < |ns| ==> ns[k] <= r.value
  {
    if ns == [] then None
    else
      var rest := Largest(ns[1..]);
      assert forall k :: 0 < k < |ns| ==> ns[k] == ns[1..][k - 1];
      if rest.Some? && ns[0] <= rest.value then rest else Some(ns[0])
  }

  function SmallestFrom(ns: seq<nat>, minimum: nat): (r: Option<nat>)
    ensures r.None? ==> forall k :: 0 <= k < |ns| ==> ns[k] < minimum
    ensures r.Some? ==> r.value in ns && r.value >= minimum
    ensures r.Some? ==> forall k :: 0 <= k < |ns| && ns[k] >= minimum ==> r.value <= ns[k]
  {
    if ns == [] then None
    else
      var rest := SmallestFrom(ns[1..], minimum);
      assert forall k :: 0 < k < |ns| ==> ns[k] == ns[1..][k - 1];
      if minimum <= ns[0] && (rest.None? || ns[0] <= rest.value) then Some(ns[0]) else rest
  }

  /** The smallest count that suffices, or the largest there is. */
  function NegotiateChannels(cs: seq<Config>, hz: nat, minimum: nat): (r: Option<nat>)
    ensures var ns := ChannelsAtRate(cs, hz);
            && (r.None? <==> ns == [])
            && (r.Some? ==> r.value in ns)
            && (r.Some? && r.value >= minimum ==> forall k :: 0 <= k < |ns| && ns[k] >= minimum ==> r.value <= ns[k])
            && (r.Some? && r.value < minimum ==> forall k :: 0 <= k < |ns| ==> ns[k] <= r.value)
  {
    var ns := ChannelsAtRate(cs, hz);
    if ns == [] then None
    else if SmallestFrom(ns, minimum).Some? then SmallestFrom(ns, minimum) else Largest(ns)
  }

  // -------------------------------------------------------------------------------------------
  // What the selectors offer
  // -------------------------------------------------------------------------------------------

  const STANDARD_SIZES: seq<nat> := [32, 64, 128, 256, 512, 1024, 2048]

  /** The first `n` standard sizes that both directions accept, in their order. */
  function StandardAccepted(ins: seq<Buffer>, outs: seq<Buffer>, n: nat): seq<nat>
    requires n <= |STANDARD_SIZES|
  {
    if n == 0 then []
    else
      StandardAccepted(ins, outs, n - 1)
      + if BothAccept(ins, outs, STANDARD_SIZES[n - 1]) then [STANDARD_SIZES[n - 1]] else []
  }

  lemma {:induction false} StandardAre(ins: seq<Buffer>, outs: seq<Buffer>, n: nat, size: nat)
    requires n <= |STANDARD_SIZES|
    ensures size in StandardAccepted(ins, outs, n) <==>
            BothAccept(ins, outs, size) && exists k :: 0 <= k < n && STANDARD_SIZES[k] == size
  {
    if n > 0 { StandardAre(ins, outs, n - 1, size); }
  }

  /** The standard sizes both directions accept, in order, and nothing else; without one, the single size the
      negotiation gives, if some input range meets some output range. */
  method SupportedBufferSizes(input: seq<Config>, output: seq<Config>, hz: nat) returns (sizes: seq<nat>)
    ensures var ins, outs := BuffersAtRate(input, hz), BuffersAtRate(output, hz);
            var standard := StandardAccepted(ins, outs, |STANDARD_SIZES|);
            && (forall i :: 0 <= i < |sizes| ==> BothAccept(ins, outs, sizes[i]))
            && (forall k :: 0 <= k < |STANDARD_SIZES| && BothAccept(ins, outs, STANDARD_SIZES[k]) ==>
                STANDARD_SIZES[k] in sizes)
            && (sizes == [] ==> forall f: nat :: !Meets(ins, outs, f))
            && (standard != [] ==> sizes == standard)
            && (standard == [] && sizes != [] ==> |sizes| == 1 && EarliestNearest(ins, outs, sizes[0]))
  {
    var ins, outs := BuffersAtRate(input, hz), BuffersAtRate(output, hz);
    sizes := [];
    if ins == [] || outs == [] {
      NothingStandard(ins, outs, |STANDARD_SIZES|);
      return;
    }
    for k := 0 to |STANDARD_SIZES|
      invariant sizes == StandardAccepted(ins, outs, k)
    {
      if BothAccept(ins, outs, STANDARD_SIZES[k]) {
        sizes := sizes + [STANDARD_SIZES[k]];
      }
    }
    StandardAreAll(ins, outs);
    if sizes == [] {
      var b := NegotiateSharedBufferSize(input, output, hz, None);
      if b.Some? {
        sizes := [b.value];
      }
    }
  }

  lemma {:induction false} NothingStandard(ins: seq<Buffer>, outs: seq<Buffer>, n: nat)
    requires n <= |STANDARD_SIZES| && (ins == [] || outs == [])
    ensures StandardAccepted(ins, outs, n) == []
  {
    if n > 0 { NothingStandard(ins, outs, n - 1); }
  }

  lemma {:induction false} StandardAreAll(ins: seq<Buffer>, outs: seq<Buffer>)
    ensures var sizes := StandardAccepted(ins, outs, |STANDARD_SIZES|);
            && (forall i :: 0 <= i < |sizes| ==> BothAccept(ins, outs, sizes[i]))
            && (forall k :: 0 <= k < |STANDARD_SIZES| && BothAccept(ins, outs, STANDARD_SIZES[k]) ==>
                STANDARD_SIZES[k] in sizes)
  {
    var n := |STANDARD_SIZES|;
    var sizes := StandardAccepted(ins, outs, n);
    forall i | 0 <= i < |sizes| ensures BothAccept(ins, outs, sizes[i]) {
      StandardAre(ins, outs, n, sizes[i]);
    }
    forall k | 0 <= k < n && BothAccept(ins, outs, STANDARD_SIZES[k]) ensures STANDARD_SIZES[k] in sizes {
      StandardAre(ins, outs, n, STANDARD_SIZES[k]);
    }
  }
}
