/** Ping bookkeeping between the two peers: exactly one ping of our own circulates, each ack of it
    yields a round-trip-time sample, and the latest samples are kept for an RTT estimate.
    Timestamps are integer milliseconds supplied by the caller. */
module NetSynchronisationManager {
  import opened TickService

  const MaxRTTsCount: nat := 5

  /** A message handed to the connection. */
  datatype Outgoing = Ping(currentTick: UShort) | PingAck(receivedTick: UShort)

  /** The RTT list after one more sample: appended, then the oldest dropped once it is too long. */
  function AddSample(rtts: seq<int>, rtt: int): seq<int>
  {
    var added := rtts + [rtt];
    if |added| > MaxRTTsCount then added[1..] else added
  }

  /** The most recent MaxRTTsCount samples of a history, oldest first. */
  function Recent(samples: seq<int>): (r: seq<int>)
    ensures |r| == if |samples| <= MaxRTTsCount then |samples| else MaxRTTsCount
    ensures r == samples[|samples| - |r|..]
  {
    if |samples| <= MaxRTTsCount then samples else samples[|samples| - MaxRTTsCount..]
  }

  /** Keeping the list with AddSample keeps exactly the latest samples in arrival order. */
  lemma {:induction false} AddSampleKeepsRecent(samples: seq<int>, rtt: int)
    ensures AddSample(Recent(samples), rtt) == Recent(samples + [rtt])
  {
    var n := |samples|;
    if n >= MaxRTTsCount {
      var added := Recent(samples) + [rtt];
      assert added[1..] == samples[n - MaxRTTsCount + 1..] + [rtt];
      assert (samples + [rtt])[n + 1 - MaxRTTsCount..] == samples[n - MaxRTTsCount + 1..] + [rtt];
    }
  }

  /** The list never exceeds MaxRTTsCount and its last entry is the newest sample. */
  lemma {:induction false} AddSampleBounded(rtts: seq<int>, rtt: int)
    requires |rtts| <= MaxRTTsCount
    ensures 1 <= |AddSample(rtts, rtt)| <= MaxRTTsCount
    ensures AddSample(rtts, rtt)[|AddSample(rtts, rtt)| - 1] == rtt
  {
  }

  function Sum(xs: seq<int>): int
  {
    if xs == [] then 0 else xs[0] + Sum(xs[1..])
  }

  function Mean(xs: seq<int>): real
    requires |xs| > 0
  {
    Sum(xs) as real / |xs| as real
  }

  lemma {:induction false} SumBounds(xs: seq<int>, lo: int, hi: int)
    requires forall i :: 0 <= i < |xs| ==> lo <= xs[i] <= hi
    ensures |xs| * lo <= Sum(xs) <= |xs| * hi
  {
    if xs != [] {
      SumBounds(xs[1..], lo, hi);
      assert |xs| * lo == lo + |xs[1..]| * lo;
      assert |xs| * hi == hi + |xs[1..]| * hi;
    }
  }

  /** The mean lies within any bounds of the samples; equal samples average to their value. */
  lemma {:induction false} MeanWithinSamples(xs: seq<int>, lo: int, hi: int)
    requires |xs| > 0
    requires forall i :: 0 <= i < |xs| ==> lo <= xs[i] <= hi
    ensures lo as real <= Mean(xs) <= hi as real
  {
    SumBounds(xs, lo, hi);
    QuotientBounds(Sum(xs) as real, |xs| as real, lo as real, hi as real);
  }

  lemma QuotientBounds(s: real, n: real, lo: real, hi: real)
    requires n > 0.0 && n * lo <= s <= n * hi
    ensures lo <= s / n <= hi
  {
    assert s / n - lo == (s - n * lo) / n;
    assert hi - s / n == (n * hi - s) / n;
  }

  function PingCount(outbox: seq<Outgoing>): nat
  {
    if outbox == [] then 0 else PingCount(outbox[..|outbox| - 1]) + (if outbox[|outbox| - 1].Ping? then 1 else 0)
  }

  lemma {:induction false} PingCountAppend(outbox: seq<Outgoing>, m: Outgoing)
    ensures PingCount(outbox + [m]) == PingCount(outbox) + (if m.Ping? then 1 else 0)
  {
    assert (outbox + [m])[..|outbox + [m]| - 1] == outbox;
  }

  class NetSynchronisationManager {
    var rtts: seq<int>
    /** Every RTT sample ever taken, oldest first. */
    ghost var samples: seq<int>
    var latestPingSentTimestampMs: int
    var latestPingSentTick: UShort
    var latestPeerPingTick: UShort
    var latestPeerPingTimestampMs: int
    var outbox: seq<Outgoing>
    ghost var acksReceived: nat

    ghost predicate Valid()
      reads this
    {
      rtts == Recent(samples)
    }

    /** One ping of ours is outstanding: every ack received was followed by exactly one new ping. */
    ghost predicate OnePingInFlight()
      reads this
    {
      PingCount(outbox) == acksReceived + 1
    }

    constructor ()
      ensures Valid() && rtts == [] && samples == [] && outbox == [] && acksReceived == 0
      ensures latestPingSentTimestampMs == 0 && latestPingSentTick == 0
      ensures latestPeerPingTick == 0 && latestPeerPingTimestampMs == 0
    {
      rtts, samples := [], [];
      latestPingSentTimestampMs, latestPingSentTick := 0, 0;
      latestPeerPingTick, latestPeerPingTimestampMs := 0, 0;
      outbox, acksReceived := [], 0;
    }

    /** The mean of the kept samples; the source's Average throws on an empty list. The estimate
        lies between the smallest and the largest sample (MeanWithinSamples), so a steady RTT is
        estimated exactly. */
    function EstimateRTT(): (r: real)
      reads this
      requires |rtts| > 0
      ensures (forall i :: 0 <= i < |rtts| ==> rtts[i] == rtts[0]) ==> r == rtts[0] as real
    {
      if forall i :: 0 <= i < |rtts| ==> rtts[i] == rtts[0] then
        MeanWithinSamples(rtts, rtts[0], rtts[0]);
        Mean(rtts)
      else
        Mean(rtts)
    }

    /** Sends the first ping once the connection is set up. The peer's pings may already have been
        acked by then, so the outbox may hold acks but no ping of ours. */
    method OnConnectionSetupComplete(nowMs: int, currentTick: UShort)
      requires Valid() && PingCount(outbox) == 0 && acksReceived == 0
      modifies this`latestPingSentTimestampMs, this`latestPingSentTick, this`outbox
      ensures Valid() && OnePingInFlight()
      ensures outbox == old(outbox) + [Ping(currentTick)]
      ensures latestPingSentTick == currentTick && latestPingSentTimestampMs == nowMs
    {
      SendPing(nowMs, currentTick);
    }

    /** Records the peer's ping and acks it with the tick it carried. */
    method HandlePingMsg(msgCurrentTick: UShort, nowMs: int)
      modifies this`latestPeerPingTick, this`latestPeerPingTimestampMs, this`outbox
      ensures latestPeerPingTick == msgCurrentTick && latestPeerPingTimestampMs == nowMs
      ensures outbox == old(outbox) + [PingAck(msgCurrentTick)]
      ensures PingCount(outbox) == old(PingCount(outbox))
    {
      latestPeerPingTick := msgCurrentTick;
      latestPeerPingTimestampMs := nowMs;
      SendPingAck(msgCurrentTick);
    }

    /** Takes an RTT sample from the ack of our latest ping and sends the next ping. `receivedAtMs`
        is the time the ack is handled, `nextPingSentAtMs` the time the next ping is sent. */
    method HandlePingAckMsg(receivedTick: UShort, receivedAtMs: int, nextPingSentAtMs: int, currentTick: UShort)
      requires Valid()
      requires receivedTick == latestPingSentTick
      modifies this`rtts, this`samples, this`acksReceived
      modifies this`latestPingSentTimestampMs, this`latestPingSentTick, this`outbox
      ensures Valid()
      ensures samples == old(samples) + [receivedAtMs - old(latestPingSentTimestampMs)]
      ensures rtts == AddSample(old(rtts), receivedAtMs - old(latestPingSentTimestampMs))
      ensures |rtts| <= MaxRTTsCount
      ensures latestPingSentTick == currentTick && latestPingSentTimestampMs == nextPingSentAtMs
      ensures outbox == old(outbox) + [Ping(currentTick)]
      ensures acksReceived == old(acksReceived) + 1
      ensures old(OnePingInFlight()) ==> OnePingInFlight()
    {
      var rtt := receivedAtMs - latestPingSentTimestampMs;
      AddSampleKeepsRecent(samples, rtt);
      rtts := rtts + [rtt];
      if |rtts| > MaxRTTsCount {
        rtts := rtts[1..];
      }
      assert rtts == AddSample(old(rtts), rtt);
      samples := samples + [rtt];
      acksReceived := acksReceived + 1;
      SendPing(nextPingSentAtMs, currentTick);
    }

    /** Records the send time and the clock's current tick, and sends a ping carrying it. */
    method SendPing(nowMs: int, currentTick: UShort)
      modifies this`latestPingSentTimestampMs, this`latestPingSentTick, this`outbox
      ensures latestPingSentTimestampMs == nowMs && latestPingSentTick == currentTick
      ensures outbox == old(outbox) + [Ping(currentTick)]
      ensures PingCount(outbox) == old(PingCount(outbox)) + 1
    {
      latestPingSentTimestampMs := nowMs;
      latestPingSentTick := currentTick;
      PingCountAppend(outbox, Ping(currentTick));
      outbox := outbox + [Ping(currentTick)];
    }

    method SendPingAck(receivedTick: UShort)
      modifies this`outbox
      ensures outbox == old(outbox) + [PingAck(receivedTick)]
      ensures PingCount(outbox) == old(PingCount(outbox))
    {
      PingCountAppend(outbox, PingAck(receivedTick));
      outbox := outbox + [PingAck(receivedTick)];
    }
  }

  /** The peer's ping may be handled before our own setup completes; the first ping of ours then
      still leaves exactly one in flight, behind the ack already sent. */
  method PingHandledBeforeSetup(n: NetSynchronisationManager, peerTick: UShort, receivedAtMs: int, nowMs: int, currentTick: UShort)
    requires n.Valid() && n.outbox == [] && n.acksReceived == 0
    modifies n
    ensures n.Valid() && n.OnePingInFlight()
    ensures n.outbox == [PingAck(peerTick), Ping(currentTick)]
  {
    n.HandlePingMsg(peerTick, receivedAtMs);
    n.OnConnectionSetupComplete(nowMs, currentTick);
  }
}
