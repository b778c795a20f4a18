/** The milestone record of one request attempt and the six-phase breakdown
    derived from it (getTimings). */
module Timings {
  import opened Wrappers
  import opened HrTimes

  /** The milestone record: when the attempt started and, if they happened,
      when DNS lookup, TCP connect, TLS handshake, the first readable byte
      and the end of the response were observed. */
  datatype Milestones = Milestones(
    startAt: HrTime,
    dnsLookupAt: Option<HrTime>,
    tcpConnectionAt: Option<HrTime>,
    tlsHandshakeAt: Option<HrTime>,
    firstByteAt: Option<HrTime>,
    endAt: Option<HrTime>)

  /** Phase durations in milliseconds; the two optional phases are absent
      (not zero) when their milestone was never recorded. */
  datatype Breakdown = Breakdown(
    dnsLookup: Option<real>,
    tcpConnection: real,
    tlsHandshake: Option<real>,
    firstByte: real,
    contentTransfer: real,
    total: real)

  /** The milestones by name, in lifecycle order. */
  datatype Milestone = StartAt | DnsLookupAt | TcpConnectionAt | TlsHandshakeAt | FirstByteAt | EndAt

  /** Reading element 0 of an undefined milestone throws a TypeError. */
  datatype TimingError = UndefinedMilestone(which: Milestone)

  /** Number of milestones; index 0 is startAt, index 5 is endAt. */
  const MILESTONE_COUNT: nat := 6

  /** The milestone at lifecycle position k. */
  function At(m: Milestones, k: nat): Option<HrTime>
    requires k < MILESTONE_COUNT
  {
    if k == 0 then Some(m.startAt)
    else if k == 1 then m.dnsLookupAt
    else if k == 2 then m.tcpConnectionAt
    else if k == 3 then m.tlsHandshakeAt
    else if k == 4 then m.firstByteAt
    else m.endAt
  }

  /** The milestones a finished attempt always has. */
  predicate Complete(m: Milestones) {
    m.tcpConnectionAt.Some? && m.firstByteAt.Some? && m.endAt.Some?
  }

  /** The timestamps that are present are non-decreasing in lifecycle order. */
  predicate Monotone(m: Milestones) {
    forall i, j | 0 <= i < j < MILESTONE_COUNT && At(m, i).Some? && At(m, j).Some? ::
      NotAfter(At(m, i).value, At(m, j).value)
  }

  /** getTimings. The entries are built in order, and the first one that
      reads an undefined required milestone throws. */
  function GetTimings(m: Milestones): (r: Result<Breakdown, TimingError>)
    ensures r.Success? <==> Complete(m)
    ensures r == Failure(UndefinedMilestone(TcpConnectionAt)) <==> m.tcpConnectionAt.None?
    ensures r == Failure(UndefinedMilestone(FirstByteAt)) <==>
              m.tcpConnectionAt.Some? && m.firstByteAt.None?
    ensures r == Failure(UndefinedMilestone(EndAt)) <==>
              m.tcpConnectionAt.Some? && m.firstByteAt.Some? && m.endAt.None?
  {
    if m.tcpConnectionAt.None? then Failure(UndefinedMilestone(TcpConnectionAt))
    else if m.firstByteAt.None? then Failure(UndefinedMilestone(FirstByteAt))
    else if m.endAt.None? then Failure(UndefinedMilestone(EndAt))
    else
      Success(Breakdown(
        if m.dnsLookupAt.Some? then Some(DurationMs(m.startAt, m.dnsLookupAt.value)) else None,
        DurationMs(m.dnsLookupAt.OrElse(m.startAt), m.tcpConnectionAt.value),
        if m.tlsHandshakeAt.Some? then Some(DurationMs(m.tcpConnectionAt.value, m.tlsHandshakeAt.value)) else None,
        DurationMs(m.tlsHandshakeAt.OrElse(m.tcpConnectionAt.value), m.firstByteAt.value),
        DurationMs(m.firstByteAt.value, m.endAt.value),
        DurationMs(m.startAt, m.endAt.value)))
  }

  /** The phase that ends at milestone k (1 = dnsLookup … 5 = contentTransfer). */
  function Phase(b: Breakdown, k: nat): Option<real>
    requires 1 <= k < MILESTONE_COUNT
  {
    if k == 1 then b.dnsLookup
    else if k == 2 then Some(b.tcpConnection)
    else if k == 3 then b.tlsHandshake
    else if k == 4 then Some(b.firstByte)
    else Some(b.contentTransfer)
  }

  /** Position of the latest milestone before k that is present; startAt
      always is, so there is one. */
  function AnchorIndex(m: Milestones, k: nat): (i: nat)
    requires 1 <= k < MILESTONE_COUNT
    ensures i < k && At(m, i).Some?
    ensures forall j | i < j < k :: At(m, j).None?
  {
    if k == 1 || At(m, k - 1).Some? then k - 1 else AnchorIndex(m, k - 1)
  }

  /** Every phase that is present measures from the latest earlier milestone
      that was recorded up to its own milestone, and it is present exactly
      when its own milestone is. */
  lemma PhaseMeasuresFromLatestEarlierMilestone(m: Milestones, k: nat)
    requires Complete(m) && 1 <= k < MILESTONE_COUNT
    ensures Phase(GetTimings(m).value, k) ==
              if At(m, k).None? then None
              else Some(DurationMs(At(m, AnchorIndex(m, k)).value, At(m, k).value))
  {
  }

  /** The optional phases are absent exactly when their milestone is, and the
      phase after each one falls back to the milestone before it. */
  lemma OptionalPhases(m: Milestones)
    requires Complete(m)
    ensures GetTimings(m).value.dnsLookup.None? <==> m.dnsLookupAt.None?
    ensures GetTimings(m).value.tlsHandshake.None? <==> m.tlsHandshakeAt.None?
    ensures m.dnsLookupAt.None? ==>
              GetTimings(m).value.tcpConnection == DurationMs(m.startAt, m.tcpConnectionAt.value)
    ensures m.tlsHandshakeAt.None? ==>
              GetTimings(m).value.firstByte == DurationMs(m.tcpConnectionAt.value, m.firstByteAt.value)
  {
  }

  /** The sum of the phases that are present. */
  function PhaseSum(b: Breakdown): real {
    b.dnsLookup.OrElse(0.0) + b.tcpConnection + b.tlsHandshake.OrElse(0.0)
      + b.firstByte + b.contentTransfer
  }

  /** In each of the four present/absent combinations of the optional
      milestones, the phases sum exactly to the total. */
  lemma PhasesSumToTotal(m: Milestones)
    requires Complete(m)
    ensures PhaseSum(GetTimings(m).value) == GetTimings(m).value.total
    ensures GetTimings(m).value.total == DurationMs(m.startAt, m.endAt.value)
  {
  }

  /** With non-decreasing milestones every phase, and the total, is non-negative. */
  lemma PhasesNonNegative(m: Milestones)
    requires Complete(m) && Monotone(m)
    ensures forall k | 1 <= k < MILESTONE_COUNT && Phase(GetTimings(m).value, k).Some? ::
              Phase(GetTimings(m).value, k).value >= 0.0
    ensures GetTimings(m).value.total >= 0.0
  {
    forall k | 1 <= k < MILESTONE_COUNT && Phase(GetTimings(m).value, k).Some?
      ensures Phase(GetTimings(m).value, k).value >= 0.0
    {
      PhaseMeasuresFromLatestEarlierMilestone(m, k);
      var i := AnchorIndex(m, k);
      DurationNonNegativeIff(At(m, i).value, At(m, k).value);
    }
    assert At(m, 0).Some? && At(m, 5).Some?;
    DurationNonNegativeIff(m.startAt, m.endAt.value);
  }

  /** Milliseconds as a clock reading in the first second. */
  function Ms(ms: nat): HrTime
    requires ms < 1000
  {
    HrPair(0, ms * NS_PER_MS)
  }

  /** Every milestone recorded: start 0, DNS 5, TCP 15, TLS 45, first byte
      120, end 200 (milliseconds). */
  lemma FullHandshakeExample()
    ensures GetTimings(Milestones(Ms(0), Some(Ms(5)), Some(Ms(15)), Some(Ms(45)), Some(Ms(120)), Some(Ms(200))))
         == Success(Breakdown(Some(5.0), 10.0, Some(30.0), 75.0, 80.0, 200.0))
  {
  }

  /** No DNS and no TLS milestone: start 0, TCP 2, first byte 10, end 50. */
  lemma ReusedConnectionExample()
    ensures GetTimings(Milestones(Ms(0), None, Some(Ms(2)), None, Some(Ms(10)), Some(Ms(50))))
         == Success(Breakdown(None, 2.0, None, 8.0, 40.0, 50.0))
  {
  }
}
