/** The offset between the local clock and Steam's, kept in two module-level variables of
    server/confirmations.js (`timeOffset`, `isTimeAligned`) that the first successful sync latches. */
module TimeSync {
  import opened Js

  /** What the `gettime` request gave: it threw, or an HTTP response with this parsed body. */
  datatype TimeReply = Threw | Replied(data: Value)

  /** The offset in seconds (a number, or NaN when the server time had no digits) and the latch. */
  datatype ClockState = ClockState(offset: Value, aligned: bool)

  const Initial: ClockState := ClockState(Num(0), false)

  predicate ValidState(s: ClockState) {
    s.offset.Num? || s.offset.NaN?
  }

  /** `res.data?.response?.server_time` */
  function ServerTime(data: Value): Value {
    Get(Get(data, "response"), "server_time")
  }

  /** `serverTime - localTime` for a parsed server time and whole local seconds. */
  function OffsetFrom(serverTime: Value, localSeconds: int): (r: Value)
    requires serverTime.Num? || serverTime.NaN?
    ensures r.Num? || r.NaN?
  {
    if serverTime.Num? then Num(serverTime.n - localSeconds) else NaN
  }

  /** One call of `alignTime` at local time `localMs`: nothing happens once aligned; otherwise a
      truthy server time sets the offset to the server's seconds minus the local whole seconds and
      sets the latch; a failed request or an answer without a server time leaves both as they are. */
  function AlignStep(s: ClockState, reply: TimeReply, localMs: int): (r: ClockState)
    requires ValidState(s)
    ensures ValidState(r)
  {
    if s.aligned then s
    else match reply
      case Threw => s
      case Replied(data) =>
        if Truthy(ServerTime(data)) then ClockState(OffsetFrom(ParseInt(ServerTime(data)), localMs / 1000), true)
        else s
  }

  /** `getSteamTime()` at local time `nowMs`: whole local seconds plus the offset. */
  function SteamTime(s: ClockState, nowMs: int): (r: Value)
    requires ValidState(s)
    ensures r.Num? || r.NaN?
  {
    if s.offset.Num? then Num(nowMs / 1000 + s.offset.n) else NaN
  }

  /** Whether a reply carries a server time that `alignTime` accepts. */
  predicate Accepts(reply: TimeReply) {
    reply.Replied? && Truthy(ServerTime(reply.data))
  }

  /** Successive calls of `alignTime`, each with its reply and local time. */
  function AlignAll(s: ClockState, calls: seq<(TimeReply, int)>): (r: ClockState)
    requires ValidState(s)
    ensures ValidState(r)
    decreases |calls|
  {
    if calls == [] then s else AlignAll(AlignStep(s, calls[0].0, calls[0].1), calls[1..])
  }

  // ---------------------------------------------------------------------------

  /** Before any sync, Steam time is the local time in whole seconds. */
  lemma SteamTimeInitial(nowMs: int)
    ensures SteamTime(Initial, nowMs) == Num(nowMs / 1000)
  {
  }

  /** Right after a successful sync, Steam time at the same local second is the server's time. */
  lemma SteamTimeAfterSync(s: ClockState, data: Value, localMs: int, nowMs: int)
    requires ValidState(s) && !s.aligned && Truthy(ServerTime(data))
    requires nowMs / 1000 == localMs / 1000
    ensures SteamTime(AlignStep(s, Replied(data), localMs), nowMs) == ParseInt(ServerTime(data))
  {
  }

  /** Once aligned, no further call changes anything. */
  lemma {:induction false} AlignedIsFinal(s: ClockState, calls: seq<(TimeReply, int)>)
    requires ValidState(s) && s.aligned
    ensures AlignAll(s, calls) == s
    decreases |calls|
  {
    if calls != [] {
      AlignedIsFinal(AlignStep(s, calls[0].0, calls[0].1), calls[1..]);
    }
  }

  /** Calls whose replies carry no server time leave the offset and the latch untouched. */
  lemma {:induction false} RejectedRepliesChangeNothing(s: ClockState, calls: seq<(TimeReply, int)>)
    requires ValidState(s)
    requires forall i :: 0 <= i < |calls| ==> !Accepts(calls[i].0)
    ensures AlignAll(s, calls) == s
    decreases |calls|
  {
    if calls != [] {
      RejectedRepliesChangeNothing(AlignStep(s, calls[0].0, calls[0].1), calls[1..]);
    }
  }

  /** From an unaligned state, the first accepted reply decides the offset for good. */
  lemma {:induction false} FirstAcceptedReplyWins(s: ClockState, calls: seq<(TimeReply, int)>, k: nat)
    requires ValidState(s) && !s.aligned
    requires k < |calls| && Accepts(calls[k].0)
    requires forall i :: 0 <= i < k ==> !Accepts(calls[i].0)
    ensures AlignAll(s, calls)
         == ClockState(OffsetFrom(ParseInt(ServerTime(calls[k].0.data)), calls[k].1 / 1000), true)
    decreases k
  {
    var s1 := AlignStep(s, calls[0].0, calls[0].1);
    if k == 0 {
      AlignedIsFinal(s1, calls[1..]);
    } else {
      assert !Accepts(calls[0].0);
      FirstAcceptedReplyWins(s1, calls[1..], k - 1);
    }
  }

  /** `timeOffset` and `isTimeAligned`, with `alignTime` and `getSteamTime`. */
  class Clock {
    var offset: Value
    var aligned: bool

    function State(): ClockState
      reads this
    {
      ClockState(offset, aligned)
    }

    predicate Valid()
      reads this
    {
      ValidState(State())
    }

    constructor()
      ensures State() == Initial && Valid()
    {
      offset := Num(0);
      aligned := false;
    }

    /** `alignTime()`: `requested` says whether the `gettime` request was sent, which happens
        exactly when the clock is not aligned yet; `reply` is what it gave. */
    method Align(reply: TimeReply, localMs: int) returns (requested: bool)
      requires Valid()
      modifies this
      ensures Valid()
      ensures requested == !old(aligned)
      ensures State() == AlignStep(old(State()), reply, localMs)
    {
      if aligned {
        return false;
      }
      requested := true;
      match reply
      case Threw =>
      case Replied(data) =>
        var serverTime := ServerTime(data);
        if Truthy(serverTime) {
          offset := OffsetFrom(ParseInt(serverTime), localMs / 1000);
          aligned := true;
        }
    }

    /** `getSteamTime()` at local time `nowMs`. */
    function Now(nowMs: int): Value
      requires Valid()
      reads this
    {
      SteamTime(State(), nowMs)
    }
  }
}
