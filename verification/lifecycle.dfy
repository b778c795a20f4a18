/** The milestone record of one attempt as the transport's lifecycle events
    fill it in (resetEventTimes and the handlers of sendHttpRequest), and the
    response chunks collected along the way. */
module Lifecycle {
  import opened Wrappers
  import opened HrTimes
  import opened Timings

  /** One byte of the response body. */
  newtype byte = x: int | 0 <= x < 256

  /** The lifecycle events that stamp a milestone. */
  datatype Event = Lookup | Connect | SecureConnect | Readable | End

  /** An event with the clock reading taken when it fired. */
  datatype Timed = Timed(event: Event, at: HrTime)

  /** What the attempt resolves with on the response's `end` event. */
  datatype Response = Response(status: int, data: seq<byte>)

  /** The lifecycle position of the milestone an event stamps. */
  function MilestoneOf(e: Event): (k: nat)
    ensures 1 <= k < MILESTONE_COUNT
  {
    match e
    case Lookup => 1
    case Connect => 2
    case SecureConnect => 3
    case Readable => 4
    case End => 5
  }

  /** resetEventTimes: only the start is stamped. */
  function Fresh(now: HrTime): (m: Milestones)
    ensures At(m, 0) == Some(now)
    ensures forall k | 1 <= k < MILESTONE_COUNT :: At(m, k).None?
  {
    Milestones(now, None, None, None, None, None)
  }

  /** The effect of one event handler on the record. The `readable` handler
      is registered with `once`, so only its first firing stamps firstByteAt. */
  function Step(m: Milestones, e: Event, now: HrTime): (m': Milestones)
    ensures At(m', MilestoneOf(e)).Some?
    ensures m'.startAt == m.startAt
    ensures Complete(m) ==> Complete(m')
  {
    match e
    case Lookup => m.(dnsLookupAt := Some(now))
    case Connect => m.(tcpConnectionAt := Some(now))
    case SecureConnect => m.(tlsHandshakeAt := Some(now))
    case Readable => if m.firstByteAt.None? then m.(firstByteAt := Some(now)) else m
    case End => m.(endAt := Some(now))
  }

  /** Each handler writes its own milestone (the readable handler only the
      first time) and leaves every other milestone as it was. */
  lemma StepWritesOnlyItsMilestone(m: Milestones, e: Event, now: HrTime)
    ensures forall k | 0 <= k < MILESTONE_COUNT && k != MilestoneOf(e) ::
              At(Step(m, e, now), k) == At(m, k)
    ensures At(Step(m, e, now), MilestoneOf(e)) ==
              if e == Readable && m.firstByteAt.Some? then m.firstByteAt else Some(now)
  {
  }

  /** The record after a sequence of events, applied in order. */
  function Replay(m: Milestones, trace: seq<Timed>): Milestones
    decreases |trace|
  {
    if trace == [] then m
    else
      var last := trace[|trace| - 1];
      Step(Replay(m, trace[..|trace| - 1]), last.event, last.at)
  }

  /** Events arrive in the order the transport reports them (lookup, connect,
      secureConnect, readable, end; any may be skipped or repeat) with clock
      readings that never go back and never precede the start. */
  predicate InTransportOrder(start: HrTime, trace: seq<Timed>) {
    && (forall i | 0 <= i < |trace| :: NotAfter(start, trace[i].at))
    && (forall i, j | 0 <= i < j < |trace| ::
          MilestoneOf(trace[i].event) <= MilestoneOf(trace[j].event)
          && NotAfter(trace[i].at, trace[j].at))
  }

  /** Every milestone of m is at or before position `rank` and not after `t`. */
  predicate StampedUpTo(m: Milestones, rank: nat, t: HrTime) {
    forall k | 0 <= k < MILESTONE_COUNT && At(m, k).Some? ::
      k <= rank && NotAfter(At(m, k).value, t)
  }

  /** One event that comes no earlier, in position and in time, than all the
      milestones recorded so far keeps the record monotone. */
  lemma StepKeepsMonotone(m: Milestones, rank: nat, t: HrTime, e: Event, now: HrTime)
    requires Monotone(m) && StampedUpTo(m, rank, t)
    requires rank <= MilestoneOf(e) && NotAfter(t, now)
    ensures Monotone(Step(m, e, now))
    ensures StampedUpTo(Step(m, e, now), MilestoneOf(e), now)
  {
    var m' := Step(m, e, now);
    var f := MilestoneOf(e);
    StepWritesOnlyItsMilestone(m, e, now);
    forall k | 0 <= k < MILESTONE_COUNT && At(m', k).Some?
      ensures k <= f && NotAfter(At(m', k).value, now)
    {
      if k != f {
        assert At(m, k) == At(m', k);
      }
    }
    forall i, j | 0 <= i < j < MILESTONE_COUNT && At(m', i).Some? && At(m', j).Some?
      ensures NotAfter(At(m', i).value, At(m', j).value)
    {
      if j == f {
        if At(m', j) != At(m, j) {
          assert At(m', i) == At(m, i);
        }
      }
    }
  }

  /** Replaying a trace in transport order from a fresh record: the result is
      monotone and everything in it is stamped up to the last event. */
  lemma {:induction false} ReplayStampedUpTo(start: HrTime, trace: seq<Timed>)
    requires InTransportOrder(start, trace)
    ensures Monotone(Replay(Fresh(start), trace))
    ensures trace == [] ==> StampedUpTo(Replay(Fresh(start), trace), 0, start)
    ensures trace != [] ==>
              StampedUpTo(Replay(Fresh(start), trace),
                          MilestoneOf(trace[|trace| - 1].event), trace[|trace| - 1].at)
  {
    if trace == [] {
      assert Replay(Fresh(start), trace) == Fresh(start);
    } else {
      var prefix := trace[..|trace| - 1];
      var last := trace[|trace| - 1];
      assert InTransportOrder(start, prefix);
      ReplayStampedUpTo(start, prefix);
      if prefix == [] {
        StepKeepsMonotone(Fresh(start), 0, start, last.event, last.at);
      } else {
        var prev := prefix[|prefix| - 1];
        assert prev == trace[|trace| - 2];
        StepKeepsMonotone(Replay(Fresh(start), prefix), MilestoneOf(prev.event), prev.at,
                          last.event, last.at);
      }
    }
  }

  /** An attempt whose events arrive in transport order yields, once complete,
      a breakdown in which every phase and the total are non-negative. */
  lemma InOrderAttemptHasNonNegativePhases(start: HrTime, trace: seq<Timed>)
    requires InTransportOrder(start, trace)
    requires Complete(Replay(Fresh(start), trace))
    ensures forall k | 1 <= k < MILESTONE_COUNT && Phase(GetTimings(Replay(Fresh(start), trace)).value, k).Some? ::
              Phase(GetTimings(Replay(Fresh(start), trace)).value, k).value >= 0.0
    ensures GetTimings(Replay(Fresh(start), trace)).value.total >= 0.0
  {
    ReplayStampedUpTo(start, trace);
    PhasesNonNegative(Replay(Fresh(start), trace));
  }

  /** No breakdown exists before the attempt has connected, read and ended. */
  lemma FreshRecordHasNoBreakdown(now: HrTime)
    ensures GetTimings(Fresh(now)) == Failure(UndefinedMilestone(TcpConnectionAt))
  {
  }

  /** Buffer.concat: the chunks joined in arrival order. */
  function Concat(chunks: seq<seq<byte>>): (body: seq<byte>)
    ensures body == [] <==> forall i | 0 <= i < |chunks| :: chunks[i] == []
    decreases |chunks|
  {
    if chunks == [] then [] else chunks[0] + Concat(chunks[1..])
  }

  /** Appending a chunk appends its bytes to the concatenation. */
  lemma {:induction false} ConcatAppend(chunks: seq<seq<byte>>, chunk: seq<byte>)
    ensures Concat(chunks + [chunk]) == Concat(chunks) + chunk
    decreases |chunks|
  {
    if chunks == [] {
      assert chunks + [chunk] == [chunk];
    } else {
      assert (chunks + [chunk])[1..] == chunks[1..] + [chunk];
      ConcatAppend(chunks[1..], chunk);
    }
  }

  /** One request attempt: its milestone record (scoped to the attempt rather
      than shared between invocations) and the response chunks received. */
  class Attempt {
    var startAt: HrTime
    var dnsLookupAt: Option<HrTime>
    var tcpConnectionAt: Option<HrTime>
    var tlsHandshakeAt: Option<HrTime>
    var firstByteAt: Option<HrTime>
    var endAt: Option<HrTime>
    var buffers: seq<seq<byte>>

    /** The milestone record as a value. */
    function Record(): Milestones
      reads this
    {
      Milestones(startAt, dnsLookupAt, tcpConnectionAt, tlsHandshakeAt, firstByteAt, endAt)
    }

    /** resetEventTimes, stamped with the clock reading `now`. */
    constructor (now: HrTime)
      ensures Record() == Fresh(now)
      ensures buffers == []
    {
      startAt := now;
      dnsLookupAt, tcpConnectionAt, tlsHandshakeAt, firstByteAt, endAt := None, None, None, None, None;
      buffers := [];
    }

    /** The socket's `lookup` event. */
    method OnLookup(now: HrTime)
      modifies this
      ensures Record() == Step(old(Record()), Lookup, now)
      ensures dnsLookupAt == Some(now)
      ensures buffers == old(buffers)
    {
      dnsLookupAt := Some(now);
    }

    /** The socket's `connect` event. */
    method OnConnect(now: HrTime)
      modifies this
      ensures Record() == Step(old(Record()), Connect, now)
      ensures tcpConnectionAt == Some(now)
      ensures buffers == old(buffers)
    {
      tcpConnectionAt := Some(now);
    }

    /** The socket's `secureConnect` event. */
    method OnSecureConnect(now: HrTime)
      modifies this
      ensures Record() == Step(old(Record()), SecureConnect, now)
      ensures tlsHandshakeAt == Some(now)
      ensures buffers == old(buffers)
    {
      tlsHandshakeAt := Some(now);
    }

    /** The response's `readable` event; the handler is attached with `once`,
        so a later firing finds no listener. Only this handler writes
        firstByteAt, so "first firing" is "firstByteAt still undefined". */
    method OnReadable(now: HrTime)
      modifies this
      ensures Record() == Step(old(Record()), Readable, now)
      ensures firstByteAt == if old(firstByteAt).None? then Some(now) else old(firstByteAt)
      ensures buffers == old(buffers)
    {
      if firstByteAt.None? {
        firstByteAt := Some(now);
      }
    }

    /** The response's `data` event: the chunk is kept, the record untouched. */
    method OnData(chunk: seq<byte>)
      modifies this
      ensures Record() == old(Record())
      ensures buffers == old(buffers) + [chunk]
      ensures Concat(buffers) == Concat(old(buffers)) + chunk
    {
      ConcatAppend(buffers, chunk);
      buffers := buffers + [chunk];
    }

    /** The response's `end` event: stamps endAt and yields the status code
        with every chunk received, concatenated in arrival order. */
    method OnEnd(now: HrTime, statusCode: int) returns (response: Response)
      modifies this
      ensures Record() == Step(old(Record()), End, now)
      ensures endAt == Some(now)
      ensures buffers == old(buffers)
      ensures response == Response(statusCode, Concat(buffers))
    {
      endAt := Some(now);
      response := Response(statusCode, Concat(buffers));
    }
  }
}
