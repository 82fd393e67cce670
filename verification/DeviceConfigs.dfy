/** What the negotiation of crates/namir-app/src/device_state.rs finds among the configurations at one rate. */
module DeviceConfigs {
  import opened DeviceState

  /** Configuration `i` is for the rate. */
  predicate IsAt(cs: seq<Config>, i: int, hz: nat) {
    0 <= i < |cs| && cs[i].minRate <= hz && hz <= cs[i].maxRate
  }

  /** A configuration allows a size unless it reports a range that does not hold it. */
  predicate Allows(c: Config, frames: nat) {
    c.buffer.Range? ==> c.buffer.min <= frames && frames <= c.buffer.max
  }

  ghost predicate AllowedAt(cs: seq<Config>, hz: nat, frames: nat) {
    exists i :: IsAt(cs, i, hz) && Allows(cs[i], frames)
  }

  lemma {:induction false} BuffersAre(cs: seq<Config>, hz: nat, b: Buffer)
    ensures b in BuffersAtRate(cs, hz) <==> exists i :: IsAt(cs, i, hz) && cs[i].buffer == b
  {
    if cs != [] {
      BuffersAre(cs[1..], hz, b);
      if i :| IsAt(cs, i, hz) && cs[i].buffer == b {
        assert i > 0 ==> IsAt(cs[1..], i - 1, hz) && cs[1..][i - 1].buffer == b;
      }
      if i :| IsAt(cs[1..], i, hz) && cs[1..][i].buffer == b {
        assert IsAt(cs, i + 1, hz) && cs[i + 1].buffer == b;
      }
      assert Covers(cs[0], hz) <==> IsAt(cs, 0, hz);
    }
  }

  lemma {:induction false} BuffersJoin(a: seq<Config>, b: seq<Config>, hz: nat)
    ensures BuffersAtRate(a + b, hz) == BuffersAtRate(a, hz) + BuffersAtRate(b, hz)
  {
    if a == [] {
      assert a + b == b;
    } else {
      BuffersJoin(a[1..], b, hz);
      assert (a + b)[0] == a[0] && (a + b)[1..] == a[1..] + b;
      Together(if Covers(a[0], hz) then [a[0].buffer] else [], BuffersAtRate(a[1..], hz), BuffersAtRate(b, hz));
    }
  }

  lemma Together(x: seq<Buffer>, y: seq<Buffer>, z: seq<Buffer>)
    ensures x + (y + z) == (x + y) + z
  {
  }

  /** A size is accepted exactly when some configuration at the rate reports a range that holds it, or none. */
  lemma {:induction false} AcceptedIff(cs: seq<Config>, hz: nat, frames: nat)
    ensures AcceptsBufferSize(BuffersAtRate(cs, hz), frames) <==> AllowedAt(cs, hz, frames)
  {
    var bs := BuffersAtRate(cs, hz);
    if k :| 0 <= k < |bs| && Accepts(bs[k], frames) {
      BuffersAre(cs, hz, bs[k]);
      var i :| IsAt(cs, i, hz) && cs[i].buffer == bs[k];
      assert Allows(cs[i], frames);
    }
    if i :| IsAt(cs, i, hz) && Allows(cs[i], frames) {
      BuffersAre(cs, hz, cs[i].buffer);
      var k :| 0 <= k < |bs| && bs[k] == cs[i].buffer;
      assert Accepts(bs[k], frames);
    }
  }

  /** Both ranges are reported, and both hold `frames`. */
  predicate BothHold(a: Config, b: Config, frames: nat) {
    && a.buffer.Range? && a.buffer.min <= frames && frames <= a.buffer.max
    && b.buffer.Range? && b.buffer.min <= frames && frames <= b.buffer.max
  }

  /** Two sides meet at a size exactly when a configuration of each, both at the rate, holds it. */
  lemma {:induction false} MeetsIff(input: seq<Config>, output: seq<Config>, hz: nat, frames: nat)
    ensures Meets(BuffersAtRate(input, hz), BuffersAtRate(output, hz), frames) <==>
            exists i, o :: IsAt(input, i, hz) && IsAt(output, o, hz) && BothHold(input[i], output[o], frames)
  {
    var ins, outs := BuffersAtRate(input, hz), BuffersAtRate(output, hz);
    if x, y :| 0 <= x < |ins| && 0 <= y < |outs| && Meet(ins[x], outs[y], frames) {
      BuffersAre(input, hz, ins[x]);
      BuffersAre(output, hz, outs[y]);
      var i :| IsAt(input, i, hz) && input[i].buffer == ins[x];
      var o :| IsAt(output, o, hz) && output[o].buffer == outs[y];
      assert BothHold(input[i], output[o], frames);
    }
    if i, o :| IsAt(input, i, hz) && IsAt(output, o, hz) && BothHold(input[i], output[o], frames) {
      BuffersAre(input, hz, input[i].buffer);
      BuffersAre(output, hz, output[o].buffer);
      var x :| 0 <= x < |ins| && ins[x] == input[i].buffer;
      var y :| 0 <= y < |outs| && outs[y] == output[o].buffer;
      assert Meet(ins[x], outs[y], frames);
    }
  }

  /** The range that is clamped to is that of the first configuration at the rate. */
  lemma {:induction false} FirstBuffer(cs: seq<Config>, hz: nat) returns (i: nat)
    ensures BuffersAtRate(cs, hz) == [] <==> forall k :: !IsAt(cs, k, hz)
    ensures BuffersAtRate(cs, hz) != [] ==>
              && IsAt(cs, i, hz) && BuffersAtRate(cs, hz)[0] == cs[i].buffer
              && forall k :: 0 <= k < i ==> !IsAt(cs, k, hz)
  {
    i := 0;
    if cs != [] && !Covers(cs[0], hz) {
      var j := FirstBuffer(cs[1..], hz);
      i := j + 1;
      assert BuffersAtRate(cs, hz) == BuffersAtRate(cs[1..], hz);
      if BuffersAtRate(cs, hz) == [] {
        forall k ensures !IsAt(cs, k, hz) {
          Later(cs, k, hz);
        }
      } else {
        Later(cs, i, hz);
        forall k | 0 <= k < i ensures !IsAt(cs, k, hz) {
          Later(cs, k, hz);
        }
      }
    } else if cs != [] {
      assert IsAt(cs, 0, hz);
    }
  }

  lemma Later(cs: seq<Config>, k: int, hz: nat)
    requires cs != [] && !Covers(cs[0], hz)
    ensures IsAt(cs, k, hz) <==> IsAt(cs[1..], k - 1, hz)
  {
  }

  /** The channel counts to choose from are those of the configurations at the rate. */
  lemma {:induction false} ChannelsAre(cs: seq<Config>, hz: nat, n: nat)
    ensures n in ChannelsAtRate(cs, hz) <==> exists i :: IsAt(cs, i, hz) && cs[i].channels == n
  {
    if cs != [] {
      ChannelsAre(cs[1..], hz, n);
      if i :| IsAt(cs, i, hz) && cs[i].channels == n {
        assert i > 0 ==> IsAt(cs[1..], i - 1, hz) && cs[1..][i - 1].channels == n;
      }
      if i :| IsAt(cs[1..], i, hz) && cs[1..][i].channels == n {
        assert IsAt(cs, i + 1, hz) && cs[i + 1].channels == n;
      }
      assert Covers(cs[0], hz) <==> IsAt(cs, 0, hz);
    }
  }
}
