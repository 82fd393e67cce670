/** The bridge of crates/namir-app/src/bridge.rs: a bounded ring of samples between two interleaving callbacks. */
module Bridge {
  import opened Numbers
  import opened Text

  // A single-producer, single-consumer ring, pushed and popped one sample at a time by two callbacks that the
  // system schedules as it likes.

  // -------------------------------------------------------------------------------------------
  // Every interleaving
  // -------------------------------------------------------------------------------------------

  /** One atomic step of either callback: push a captured sample, or ask for the next one. */
  datatype Op<T> = Push(sample: T) | Pull

  /** The ring and everything that has gone through it. */
  datatype State<T> = State(capacity: nat, ring: seq<T>, pushed: seq<T>, dropped: nat, delivered: seq<T>,
                            pulls: nat, padded: nat)

  function Initial<T>(capacity: nat, prefill: seq<T>): State<T> {
    State(capacity, prefill, prefill, 0, [], 0, 0)
  }

  function Step<T>(s: State<T>, op: Op<T>): State<T> {
    match op
    case Push(x) =>
      if |s.ring| < s.capacity then s.(ring := s.ring + [x], pushed := s.pushed + [x])
      else s.(pushed := s.pushed + [x], dropped := s.dropped + 1)
    case Pull =>
      if s.ring == [] then s.(pulls := s.pulls + 1, padded := s.padded + 1)
      else s.(ring := s.ring[1..], delivered := s.delivered + [s.ring[0]], pulls := s.pulls + 1)
  }

  function Run<T>(s: State<T>, ops: seq<Op<T>>): State<T> {
    if ops == [] then s else Step(Run(s, ops[..|ops| - 1]), ops[|ops| - 1])
  }

  /** `a` with some samples left out. */
  predicate Subsequence<T(==)>(a: seq<T>, b: seq<T>) {
    if a == [] then true
    else if b == [] then false
    else (a[|a| - 1] == b[|b| - 1] && Subsequence(a[..|a| - 1], b[..|b| - 1])) || Subsequence(a, b[..|b| - 1])
  }

  lemma {:induction false} SubsequenceRefl<T>(a: seq<T>)
    ensures Subsequence(a, a)
  {
    if a != [] { SubsequenceRefl(a[..|a| - 1]); }
  }

  lemma {:induction false} SubsequenceStep<T>(a: seq<T>, b: seq<T>, x: T)
    requires Subsequence(a, b)
    ensures Subsequence(a, b + [x]) && Subsequence(a + [x], b + [x])
  {
    assert (b + [x])[..|b|] == b && (a + [x])[..|a|] == a;
  }

  /** What holds in every state of every interleaving: the samples delivered and those in the ring are
      some of the pushed ones in order, and every push and every pull is accounted for. */
  predicate Accounted<T(==)>(s: State<T>) {
    && |s.ring| <= s.capacity
    && Subsequence(s.delivered + s.ring, s.pushed)
    && |s.pushed| == |s.delivered| + s.dropped + |s.ring|
    && s.pulls == |s.delivered| + s.padded
  }

  lemma {:induction false} AlwaysAccounted<T>(capacity: nat, prefill: seq<T>, ops: seq<Op<T>>)
    requires |prefill| <= capacity
    ensures Accounted(Run(Initial(capacity, prefill), ops))
  {
    if ops == [] {
      assert [] + prefill == prefill;
      SubsequenceRefl(prefill);
    } else {
      var init := ops[..|ops| - 1];
      AlwaysAccounted(capacity, prefill, init);
      StepAccounts(Run(Initial(capacity, prefill), init), ops[|ops| - 1]);
    }
  }

  lemma StepAccounts<T>(s: State<T>, op: Op<T>)
    requires Accounted(s)
    ensures Accounted(Step(s, op))
  {
    match op
    case Push(x) =>
      SubsequenceStep(s.delivered + s.ring, s.pushed, x);
      assert s.delivered + (s.ring + [x]) == s.delivered + s.ring + [x];
    case Pull =>
      if s.ring != [] {
        assert s.delivered + [s.ring[0]] + s.ring[1..] == s.delivered + s.ring;
      }
  }

  lemma {:induction false} FullSubsequence<T>(a: seq<T>, b: seq<T>)
    requires Subsequence(a, b)
    ensures |a| <= |b| && (|a| == |b| ==> a == b)
    decreases |b|
  {
    if a != [] {
      var c := b[..|b| - 1];
      if a[|a| - 1] == b[|b| - 1] && Subsequence(a[..|a| - 1], c) {
        FullSubsequence(a[..|a| - 1], c);
      } else {
        FullSubsequence(a, c);
      }
    }
  }

  /** How full the ring is, counted without looking at what is in it. */
  function Level<T>(capacity: nat, prefill: nat, ops: seq<Op<T>>): nat {
    if ops == [] then prefill
    else
      var level := Level(capacity, prefill, ops[..|ops| - 1]);
      if ops[|ops| - 1].Push? then if level < capacity then level + 1 else level
      else if level > 0 then level - 1 else 0
  }

  /** The accepted input: the prefill, and every sample pushed while there was room for it. */
  function Accepted<T>(capacity: nat, prefill: seq<T>, ops: seq<Op<T>>): seq<T> {
    if ops == [] then prefill
    else
      var init, last := ops[..|ops| - 1], ops[|ops| - 1];
      Accepted(capacity, prefill, init)
        + if last.Push? && Level(capacity, |prefill|, init) < capacity then [last.sample] else []
  }

  /** Under every interleaving, what was delivered and then what is in the ring are exactly the accepted input,
      in order: the output, padding aside, is a prefix of it. */
  lemma {:induction false} OutputIsAccepted<T>(capacity: nat, prefill: seq<T>, ops: seq<Op<T>>)
    ensures var s := Run(Initial(capacity, prefill), ops);
            && s.delivered + s.ring == Accepted(capacity, prefill, ops)
            && s.delivered <= Accepted(capacity, prefill, ops)
            && |s.ring| == Level(capacity, |prefill|, ops)
  {
    if ops == [] {
      assert [] + prefill == prefill;
    } else {
      var init, last := ops[..|ops| - 1], ops[|ops| - 1];
      OutputIsAccepted(capacity, prefill, init);
      var s := Run(Initial(capacity, prefill), init);
      RunCapacity(Initial(capacity, prefill), init);
      match last
      case Push(x) => assert s.delivered + (s.ring + [x]) == s.delivered + s.ring + [x];
      case Pull => if s.ring != [] { assert s.delivered + [s.ring[0]] + s.ring[1..] == s.delivered + s.ring; }
    }
  }

  /** With nothing dropped, what comes out is exactly a prefix of what went in. */
  lemma {:induction false} DeliveredIsPrefix<T>(capacity: nat, prefill: seq<T>, ops: seq<Op<T>>)
    requires |prefill| <= capacity && Run(Initial(capacity, prefill), ops).dropped == 0
    ensures var s := Run(Initial(capacity, prefill), ops); s.delivered + s.ring == s.pushed
  {
    AlwaysAccounted(capacity, prefill, ops);
    var s := Run(Initial(capacity, prefill), ops);
    FullSubsequence(s.delivered + s.ring, s.pushed);
  }

  /** How far pushes lead pulls, the prefill counted as pushed. */
  function Lead<T>(prefill: nat, ops: seq<Op<T>>): int {
    if ops == [] then prefill
    else Lead(prefill, ops[..|ops| - 1]) + if ops[|ops| - 1].Push? then 1 else -1
  }

  lemma {:induction false} RunCapacity<T>(s: State<T>, ops: seq<Op<T>>)
    ensures Run(s, ops).capacity == s.capacity
  {
    if ops != [] { RunCapacity(s, ops[..|ops| - 1]); }
  }

  /** After the first `n` steps, pushes lead pulls by between nothing and the capacity. */
  predicate LeadFits<T>(capacity: nat, prefill: nat, ops: seq<Op<T>>, n: nat)
    requires n <= |ops|
  {
    0 <= Lead(prefill, ops[..n]) <= capacity
  }

  /** An interleaving loses and pads nothing exactly when, after every one of its steps, pushes lead
      pulls by between nothing and the capacity. */
  lemma {:induction false} CleanIff<T>(capacity: nat, prefill: seq<T>, ops: seq<Op<T>>)
    requires |prefill| <= capacity
    ensures var s := Run(Initial(capacity, prefill), ops);
            (s.dropped == 0 && s.padded == 0) <==> forall n :: 0 <= n <= |ops| ==> LeadFits(capacity, |prefill|, ops, n)
    ensures var s := Run(Initial(capacity, prefill), ops);
            s.dropped == 0 && s.padded == 0 ==> Lead(|prefill|, ops) == |s.ring|
  {
    assert ops[..|ops|] == ops;
    AlwaysAccounted(capacity, prefill, ops);
    if ops == [] {
      assert forall n :: 0 <= n <= |ops| ==> LeadFits(capacity, |prefill|, ops, n);
    } else {
      var init := ops[..|ops| - 1];
      CleanIff(capacity, prefill, init);
      forall n | 0 <= n <= |init|
        ensures LeadFits(capacity, |prefill|, init, n) <==> LeadFits(capacity, |prefill|, ops, n)
      {
        assert init[..n] == ops[..n];
      }
      AlwaysAccounted(capacity, prefill, init);
      var before, after := Run(Initial(capacity, prefill), init), Run(Initial(capacity, prefill), ops);
      if before.dropped == 0 && before.padded == 0 {
        assert forall n :: 0 <= n <= |init| ==> LeadFits(capacity, |prefill|, ops, n);
        var last := ops[|ops| - 1];
        assert after == Step(before, last);
        assert Lead(|prefill|, ops) == |before.ring| + if last.Push? then 1 else -1;
        assert LeadFits(capacity, |prefill|, ops, |ops|) <==> 0 <= Lead(|prefill|, ops) <= capacity;
        assert before.capacity == capacity by { RunCapacity(Initial(capacity, prefill), init); }
        assert LeadFits(capacity, |prefill|, ops, |ops|) <==> (after.dropped == 0 && after.padded == 0);
      } else {
        var n :| 0 <= n <= |init| && !LeadFits(capacity, |prefill|, init, n);
        assert !LeadFits(capacity, |prefill|, ops, n);
      }
    }
  }

  // -------------------------------------------------------------------------------------------
  // Callbacks that are not interrupted
  // -------------------------------------------------------------------------------------------

  function Pushes<T>(captured: seq<T>): seq<Op<T>> {
    seq(|captured|, i requires 0 <= i < |captured| => Push(captured[i]))
  }

  /** A whole input callback keeps the samples that fit, from the first, and drops the rest. */
  lemma {:induction false} RunPushes<T>(s: State<T>, captured: seq<T>)
    requires |s.ring| <= s.capacity
    ensures var n := Min(|captured|, s.capacity - |s.ring|);
            Run(s, Pushes(captured)).ring == s.ring + captured[..n]
            && Run(s, Pushes(captured)).dropped == s.dropped + |captured| - n
            && Run(s, Pushes(captured)).capacity == s.capacity
  {
    if captured == [] {
      assert s.ring + captured[..0] == s.ring;
    } else {
      var init := captured[..|captured| - 1];
      RunPushes(s, init);
      var ops := Pushes(captured);
      assert ops[..|ops| - 1] == Pushes(init);
      var room := s.capacity - |s.ring|;
      if |captured| <= room {
        assert s.ring + init + [captured[|captured| - 1]] == s.ring + captured;
        assert init[..|init|] == init && captured[..|captured|] == captured;
      } else {
        assert init[..room] == captured[..room];
      }
    }
  }

  /** A whole output callback delivers what the ring holds and pads the rest. */
  lemma {:induction false} RunPulls<T>(s: State<T>, count: nat)
    ensures var n := Min(count, |s.ring|);
            var t := Run(s, seq(count, _ => Pull));
            t.ring == s.ring[n..] && t.delivered == s.delivered + s.ring[..n] && t.padded == s.padded + count - n
  {
    var ops: seq<Op<T>> := seq(count, _ => Pull);
    if count == 0 {
      assert s.ring[0..] == s.ring && s.delivered + s.ring[..0] == s.delivered;
    } else {
      RunPulls(s, count - 1);
      assert ops[..count - 1] == seq(count - 1, _ => Pull);
      OnePull(s, Run(s, seq(count - 1, _ => Pull)), count - 1);
    }
  }

  /** One pull after `done` pulls. */
  lemma OnePull<T>(s: State<T>, u: State<T>, done: nat)
    requires var n := Min(done, |s.ring|);
             u.ring == s.ring[n..] && u.delivered == s.delivered + s.ring[..n] && u.padded == s.padded + done - n
    ensures var n := Min(done + 1, |s.ring|);
            var t := Step(u, Pull);
            t.ring == s.ring[n..] && t.delivered == s.delivered + s.ring[..n] && t.padded == s.padded + done + 1 - n
  {
    var n := Min(done, |s.ring|);
    if n < |s.ring| {
      assert s.ring[n..][1..] == s.ring[n + 1..];
      assert s.ring[..n + 1] == s.ring[..n] + [s.ring[n]];
    }
  }

  /** The ring as the two ends share it: a circular array, and a read and a write position that each
      run over twice the capacity so that full and empty differ. */
  class Ring<T(0)> {
    const slots: array<T>
    var head: nat
    var tail: nat

    ghost predicate Valid()
      reads this
    {
      0 < slots.Length && head < 2 * slots.Length && tail < 2 * slots.Length && Length() <= slots.Length
    }

    function Length(): int
      reads this
    {
      if head <= tail then tail - head else 2 * slots.Length - head + tail
    }

    function Advance(position: nat, n: nat): nat
    {
      if position + n < 2 * slots.Length then position + n
      else if position + n < 4 * slots.Length then position + n - 2 * slots.Length else 0
    }

    function Slot(position: nat): nat {
      if position < slots.Length then position else if position < 2 * slots.Length then position - slots.Length else 0
    }

    ghost function Contents(): (r: seq<T>)
      requires Valid()
      reads this, slots
      ensures |r| == Length()
    {
      seq(Length(), i requires 0 <= i < Length() && Valid() reads this, slots => slots[Slot(Advance(head, i))])
    }

    constructor (capacityFrames: nat)
      ensures Valid() && fresh(slots) && Contents() == []
      ensures slots.Length == if capacityFrames < 1 then 1 else capacityFrames
    {
      slots := new T[if capacityFrames < 1 then 1 else capacityFrames];
      head, tail := 0, 0;
    }

    method Push(sample: T) returns (ok: bool)
      requires Valid()
      modifies this`tail, slots
      ensures Valid()
      ensures ok == (|old(Contents())| < slots.Length)
      ensures Contents() == if ok then old(Contents()) + [sample] else old(Contents())
    {
      ok := Length() < slots.Length;
      if ok {
        slots[Slot(tail)] := sample;
        tail := Advance(tail, 1);
      }
    }

    method Pop() returns (sample: Option<T>)
      requires Valid()
      modifies this`head
      ensures Valid()
      ensures old(Contents()) == [] ==> sample == None && Contents() == []
      ensures old(Contents()) != [] ==> sample == Some(old(Contents())[0]) && Contents() == old(Contents())[1..]
    {
      if head == tail {
        sample := None;
      } else {
        sample := Some(slots[Slot(head)]);
        head := Advance(head, 1);
      }
    }

    method PushCaptured(captured: seq<T>) returns (dropped: nat)
      requires Valid()
      modifies this`tail, slots
      ensures Valid()
      ensures var n := Min(|captured|, slots.Length - |old(Contents())|);
              Contents() == old(Contents()) + captured[..n] && dropped == |captured| - n
    {
      dropped := 0;
      ghost var before := Contents();
      for i := 0 to |captured|
        invariant Valid()
        invariant var n := Min(i, slots.Length - |before|);
                  Contents() == before + captured[..n] && dropped == i - n
      {
        var ok := Push(captured[i]);
        if !ok {
          dropped := dropped + 1;
        } else {
          assert captured[..i + 1] == captured[..i] + [captured[i]];
        }
      }
    }

    method PullInto(out: array<T>, pad: T) returns (padded: nat)
      requires Valid() && out != slots
      modifies this`head, out
      ensures Valid()
      ensures var n := Min(out.Length, |old(Contents())|);
              && out[..] == old(Contents())[..n] + seq(out.Length - n, _ => pad)
              && Contents() == old(Contents())[n..] && padded == out.Length - n
    {
      padded := 0;
      ghost var before := Contents();
      for i := 0 to out.Length
        invariant Valid()
        invariant var n := Min(i, |before|);
                  && out[..i] == before[..n] + seq(i - n, _ => pad)
                  && Contents() == before[n..] && padded == i - n
      {
        var next := Pop();
        match next {
          case Some(sample) => out[i] := sample;
          case None =>
            out[i] := pad;
            padded := padded + 1;
        }
        assert out[..i + 1] == out[..i] + [out[i]];
      }
      assert out[..out.Length] == out[..];
    }

    /** Single steps of the two callbacks, in any order: the array does what the state machine says. */
    method Execute(ops: seq<Op<T>>) returns (delivered: seq<T>, dropped: nat, padded: nat)
      requires Valid()
      modifies this`head, this`tail, slots
      ensures Valid()
      ensures var s := Run(Initial(slots.Length, old(Contents())), ops);
              Contents() == s.ring && delivered == s.delivered && dropped == s.dropped && padded == s.padded
    {
      delivered, dropped, padded := [], 0, 0;
      ghost var start := Initial(slots.Length, Contents());
      for i := 0 to |ops|
        invariant Valid()
        invariant var s := Run(start, ops[..i]);
                  && Contents() == s.ring && delivered == s.delivered && dropped == s.dropped && padded == s.padded
                  && s.capacity == slots.Length
      {
        assert ops[..i + 1][..i] == ops[..i];
        match ops[i] {
          case Push(sample) =>
            var ok := Push(sample);
            if !ok { dropped := dropped + 1; }
          case Pull =>
            var next := Pop();
            match next {
              case Some(sample) => delivered := delivered + [sample];
              case None => padded := padded + 1;
            }
        }
      }
      assert ops[..|ops|] == ops;
    }
  }
}
