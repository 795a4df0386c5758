/** Runs of the rate limiter: handlers of many addresses check it, then report a failure, report a
    success (which resets), or stop without an outcome. */
module RateLimitRuns {
  import opened Wrappers
  import opened RateLimit

  datatype Kind = Try | Fail | Succeed | Abandon

  datatype Event = Event(kind: Kind, ip: Ip, at: int)

  function Apply(m: Attempts, e: Event): Attempts {
    match e.kind
    case Try => Checked(m, e.ip, e.at)
    case Fail => Recorded(m, e.ip, e.at)
    case Succeed => m - {e.ip}
    case Abandon => m
  }

  function Answer(m: Attempts, e: Event): Option<Verdict> {
    if e.kind.Try? then Some(CheckVerdict(m, e.ip, e.at)) else None
  }

  function Final(m: Attempts, events: seq<Event>): Attempts {
    if events == [] then m else Apply(Final(m, events[..|events| - 1]), events[|events| - 1])
  }

  predicate Sorted(events: seq<Event>) {
    forall i, j :: 0 <= i < j < |events| ==> events[i].at <= events[j].at
  }

  // ------------------------------------------------------- cleanup is invisible

  /** The same limiter without cleanup: entries go only by reset. */
  function ApplyPlain(m: Attempts, e: Event): Attempts {
    match e.kind
    case Fail => Recorded(m, e.ip, e.at)
    case Succeed => m - {e.ip}
    case _ => m
  }

  function AnswerPlain(m: Attempts, e: Event): Option<Verdict> {
    if !e.kind.Try? then None
    else if e.ip in m && !Expired(m[e.ip], e.at) && m[e.ip].count >= MAX_ATTEMPTS
    then Some(Refused(WINDOW_MINUTES - Minutes(e.at - m[e.ip].start)))
    else Some(Allowed)
  }

  function Answers(m: Attempts, events: seq<Event>): (r: seq<Option<Verdict>>)
    ensures |r| == |events|
    decreases |events|
  {
    if events == [] then [] else [Answer(m, events[0])] + Answers(Apply(m, events[0]), events[1..])
  }

  function AnswersPlain(m: Attempts, events: seq<Event>): (r: seq<Option<Verdict>>)
    ensures |r| == |events|
    decreases |events|
  {
    if events == [] then [] else [AnswerPlain(m, events[0])] + AnswersPlain(ApplyPlain(m, events[0]), events[1..])
  }

  /** The limiter has lost only entries that are expired for good. */
  ghost predicate LostOnlyExpired(m: Attempts, plain: Attempts, now: int) {
    && (forall ip :: ip in m ==> ip in plain && plain[ip] == m[ip])
    && (forall ip :: ip in plain && ip !in m ==> now - plain[ip].start >= WINDOW)
  }

  lemma ExpiredIsWindow(tracker: Tracker, now: int)
    ensures Expired(tracker, now) <==> now - tracker.start >= WINDOW
    ensures Minutes(now - tracker.start) >= STALE_MINUTES ==> now - tracker.start >= WINDOW
  {
  }

  lemma ApplyLosesOnlyExpired(m: Attempts, plain: Attempts, now: int, e: Event)
    requires LostOnlyExpired(m, plain, now) && now <= e.at
    ensures Answer(m, e) == AnswerPlain(plain, e)
    ensures LostOnlyExpired(Apply(m, e), ApplyPlain(plain, e), e.at)
  {
    forall ip | ip in plain {
      ExpiredIsWindow(plain[ip], e.at);
    }
  }

  lemma {:induction false} CleanupInvisibleFrom(m: Attempts, plain: Attempts, now: int, events: seq<Event>)
    requires LostOnlyExpired(m, plain, now) && Sorted(events) && (events != [] ==> now <= events[0].at)
    ensures Answers(m, events) == AnswersPlain(plain, events)
    decreases |events|
  {
    if events != [] {
      ApplyLosesOnlyExpired(m, plain, now, events[0]);
      CleanupInvisibleFrom(Apply(m, events[0]), ApplyPlain(plain, events[0]), events[0].at, events[1..]);
    }
  }

  /** On a clock that does not go back, dropping stale and expired entries changes no answer. */
  lemma CleanupInvisible(events: seq<Event>)
    requires Sorted(events)
    ensures Answers(map[], events) == AnswersPlain(map[], events)
  {
    if events != [] {
      CleanupInvisibleFrom(map[], map[], events[0].at, events);
    }
  }

  function Only(events: seq<Event>, ip: Ip): seq<Event>
    decreases |events|
  {
    if events == [] then []
    else (if events[0].ip == ip then [events[0]] else []) + Only(events[1..], ip)
  }

  /** The answers given to one address. */
  function AnswersTo(events: seq<Event>, answers: seq<Option<Verdict>>, ip: Ip): seq<Option<Verdict>>
    requires |events| == |answers|
    decreases |events|
  {
    if events == [] then []
    else (if events[0].ip == ip then [answers[0]] else []) + AnswersTo(events[1..], answers[1..], ip)
  }

  lemma PlainStep(m: Attempts, events: seq<Event>, ip: Ip)
    requires events != []
    ensures var e := events[0];
            AnswersTo(events, AnswersPlain(m, events), ip)
            == (if e.ip == ip then [AnswerPlain(m, e)] else [])
                + AnswersTo(events[1..], AnswersPlain(ApplyPlain(m, e), events[1..]), ip)
  {
    var rest := AnswersPlain(ApplyPlain(m, events[0]), events[1..]);
    assert AnswersPlain(m, events) == [AnswerPlain(m, events[0])] + rest;
    assert AnswersPlain(m, events)[1..] == rest;
  }

  lemma OnlyStep(m: Attempts, events: seq<Event>, ip: Ip)
    requires events != []
    ensures var e := events[0];
            AnswersPlain(m, Only(events, ip))
            == if e.ip == ip then [AnswerPlain(m, e)] + AnswersPlain(ApplyPlain(m, e), Only(events[1..], ip))
               else AnswersPlain(m, Only(events[1..], ip))
  {
    var rest := Only(events[1..], ip);
    if events[0].ip == ip {
      assert ([events[0]] + rest)[1..] == rest;
    } else {
      assert [] + rest == rest;
    }
  }

  lemma {:induction false} PlainIndependent(m: Attempts, own: Attempts, events: seq<Event>, ip: Ip)
    requires ip in m <==> ip in own
    requires ip in m ==> m[ip] == own[ip]
    ensures AnswersTo(events, AnswersPlain(m, events), ip) == AnswersPlain(own, Only(events, ip))
    decreases |events|
  {
    if events != [] {
      var e := events[0];
      PlainStep(m, events, ip);
      OnlyStep(own, events, ip);
      PlainIndependent(ApplyPlain(m, e), if e.ip == ip then ApplyPlain(own, e) else own, events[1..], ip);
    }
  }

  lemma {:induction false} OnlyMembers(events: seq<Event>, ip: Ip, e: Event)
    ensures e in Only(events, ip) ==> e in events && e.ip == ip
    decreases |events|
  {
    if events != [] {
      OnlyMembers(events[1..], ip, e);
      assert e in events[1..] ==> e in events;
    }
  }

  lemma {:induction false} OnlySorted(events: seq<Event>, ip: Ip)
    requires Sorted(events)
    ensures Sorted(Only(events, ip))
    decreases |events|
  {
    if events != [] {
      OnlySorted(events[1..], ip);
      var rest := Only(events[1..], ip);
      forall i | 0 <= i < |rest|
        ensures events[0].at <= rest[i].at
      {
        OnlyMembers(events[1..], ip, rest[i]);
        var j :| 0 <= j < |events[1..]| && events[1..][j] == rest[i];
        assert events[j + 1] == rest[i];
      }
    }
  }

  /** What other addresses do never changes the answers to one address, in spite of the shared map and
      its bulk cleanup. */
  lemma AddressesIndependent(events: seq<Event>, ip: Ip)
    requires Sorted(events)
    ensures AnswersTo(events, Answers(map[], events), ip) == Answers(map[], Only(events, ip))
  {
    CleanupInvisible(events);
    PlainIndependent(map[], map[], events, ip);
    OnlySorted(events, ip);
    CleanupInvisible(Only(events, ip));
  }

  // -------------------------------------------------- handlers between the calls

  predicate Passes(m: Attempts, e: Event) {
    e.kind.Try? && CheckVerdict(m, e.ip, e.at).Allowed?
  }

  /** Handlers of `ip` that have passed the check and not yet reported. */
  function Pending(events: seq<Event>, ip: Ip): int {
    if events == [] then 0
    else
      var before, e := events[..|events| - 1], events[|events| - 1];
      Pending(before, ip) +
      (if e.ip != ip then 0
       else if Passes(Final(map[], before), e) then 1
       else if e.kind.Try? then 0
       else -1)
  }

  /** At every moment every outcome has followed a passed check, and at most `k` handlers of `ip` are
      in between. */
  ghost predicate AtMostPending(events: seq<Event>, ip: Ip, k: nat) {
    0 <= Pending(events, ip) <= k && (events != [] ==> AtMostPending(events[..|events| - 1], ip, k))
  }

  function CountOf(m: Attempts, ip: Ip): nat {
    if ip in m then m[ip].count else 0
  }

  /** With at most k handlers of an address between check and outcome its count stays within
      max - 1 + k, whatever the clock, the cleanup and the other addresses do. */
  lemma {:induction false} CountBounded(events: seq<Event>, ip: Ip, k: nat)
    requires AtMostPending(events, ip, k)
    ensures CountOf(Final(map[], events), ip) + Pending(events, ip) <= MAX_ATTEMPTS - 1 + k
  {
    if events != [] {
      CountBounded(events[..|events| - 1], ip, k);
    }
  }

  /** In particular the u32 counter cannot overflow. */
  lemma CountStaysBelow(events: seq<Event>, ip: Ip, k: nat)
    requires AtMostPending(events, ip, k)
    ensures CountOf(Final(map[], events), ip) <= MAX_ATTEMPTS - 1 + k
  {
    CountBounded(events, ip, k);
  }

  // ---------------------------------------------------------- the reference windows

  /** Times of the failures of `ip` recorded since its last reset. */
  function Failures(events: seq<Event>, ip: Ip): seq<int> {
    if events == [] then [] else FailuresWith(Failures(events[..|events| - 1], ip), events[|events| - 1], ip)
  }

  function FailuresWith(times: seq<int>, e: Event, ip: Ip): seq<int> {
    if e.ip != ip then times
    else if e.kind.Fail? then times + [e.at]
    else if e.kind.Succeed? then []
    else times
  }

  /** A failure at `t` opens a window if the last one is over. */
  function NextStarts(times: seq<int>, starts: seq<nat>, t: int): (r: seq<nat>)
    requires starts != [] ==> starts[|starts| - 1] < |times|
    ensures r != [] && r[|r| - 1] <= |times|
  {
    if starts == [] || t - times[starts[|starts| - 1]] >= WINDOW then starts + [|times|] else starts
  }

  /** Fixed windows, from the failure times alone: the indices of the failures that opened one. */
  function WindowStarts(times: seq<int>): (starts: seq<nat>)
    ensures starts != [] ==> starts[|starts| - 1] < |times|
  {
    if times == [] then []
    else
      var before := times[..|times| - 1];
      NextStarts(before, WindowStarts(before), times[|times| - 1])
  }

  /** The limiter's entry is the current window; without an entry the last window is over. */
  ghost predicate EntryIsWindow(m: Attempts, ip: Ip, times: seq<int>, starts: seq<nat>, now: int) {
    && (starts == [] ==> ip !in m)
    && (starts != [] ==>
          var last := starts[|starts| - 1];
          && last < |times|
          && (ip in m ==> m[ip] == Tracker(|times| - last, times[last]))
          && (ip !in m ==> times[last] + WINDOW <= now))
  }

  function StartsWith(times: seq<int>, starts: seq<nat>, e: Event, ip: Ip): seq<nat>
    requires starts != [] ==> starts[|starts| - 1] < |times|
  {
    if e.ip != ip then starts
    else if e.kind.Fail? then NextStarts(times, starts, e.at)
    else if e.kind.Succeed? then []
    else starts
  }

  lemma EventKeepsEntry(m: Attempts, ip: Ip, times: seq<int>, starts: seq<nat>, now: int, e: Event)
    requires EntryIsWindow(m, ip, times, starts, now) && now <= e.at
    ensures EntryIsWindow(Apply(m, e), ip, FailuresWith(times, e, ip), StartsWith(times, starts, e, ip), e.at)
  {
    if ip in m {
      ExpiredIsWindow(m[ip], e.at);
    }
  }

  lemma StartsStep(times: seq<int>, e: Event, ip: Ip)
    ensures WindowStarts(FailuresWith(times, e, ip)) == StartsWith(times, WindowStarts(times), e, ip)
  {
    assert (times + [e.at])[..|times|] == times;
  }

  function LastTime(events: seq<Event>, otherwise: int): int {
    if events == [] then otherwise else events[|events| - 1].at
  }

  lemma PrefixSorted(events: seq<Event>)
    requires events != [] && Sorted(events)
    ensures Sorted(events[..|events| - 1])
    ensures LastTime(events[..|events| - 1], events[|events| - 1].at) <= events[|events| - 1].at
  {
  }

  lemma {:induction false} EntryTracksWindow(events: seq<Event>, ip: Ip, start: int)
    requires Sorted(events)
    ensures EntryIsWindow(Final(map[], events), ip, Failures(events, ip), WindowStarts(Failures(events, ip)),
                          LastTime(events, start))
  {
    if events != [] {
      var before, e := events[..|events| - 1], events[|events| - 1];
      PrefixSorted(events);
      EntryTracksWindow(before, ip, e.at);
      var times := Failures(before, ip);
      EventKeepsEntry(Final(map[], before), ip, times, WindowStarts(times), LastTime(before, e.at), e);
      StartsStep(times, e, ip);
    }
  }

  lemma RefusedInWindow(m: Attempts, ip: Ip, times: seq<int>, starts: seq<nat>, last: int, now: int)
    requires EntryIsWindow(m, ip, times, starts, last) && last <= now
    ensures var verdict := CheckVerdict(m, ip, now);
            && (verdict.Refused? <==>
                  starts != [] && now < times[starts[|starts| - 1]] + WINDOW && |times| - starts[|starts| - 1] >= 5)
            && (verdict.Refused? && times[starts[|starts| - 1]] <= now ==>
                  verdict.minutes == 15 - (now - times[starts[|starts| - 1]]) / MINUTE)
  {
    if ip in m {
      ExpiredIsWindow(m[ip], now);
    }
  }

  lemma {:induction false} FailuresPast(events: seq<Event>, ip: Ip, start: int)
    requires Sorted(events)
    ensures forall t :: t in Failures(events, ip) ==> t <= LastTime(events, start)
  {
    if events != [] {
      var before, e := events[..|events| - 1], events[|events| - 1];
      PrefixSorted(events);
      FailuresPast(before, ip, e.at);
    }
  }

  /** On a clock that does not go back a check is refused exactly when the current window is still open
      and holds at least five failures; the refusal then advises what the window's start demands. */
  lemma RefusedExactly(events: seq<Event>, ip: Ip, now: int)
    requires Sorted(events) && LastTime(events, now) <= now
    ensures var times := Failures(events, ip);
            var starts := WindowStarts(times);
            var verdict := CheckVerdict(Final(map[], events), ip, now);
            && (verdict.Refused? <==>
                  starts != [] && now < times[starts[|starts| - 1]] + WINDOW && |times| - starts[|starts| - 1] >= 5)
            && (verdict.Refused? ==> verdict.minutes == 15 - (now - times[starts[|starts| - 1]]) / MINUTE)
  {
    var times := Failures(events, ip);
    var starts := WindowStarts(times);
    EntryTracksWindow(events, ip, now);
    FailuresPast(events, ip, now);
    assert starts != [] ==> times[starts[|starts| - 1]] in times;
    RefusedInWindow(Final(map[], events), ip, times, starts, LastTime(events, now), now);
  }

  // ------------------------------------------------------ failures in an interval

  /** Failures in order, grouped into windows of at most `size`, whose starts are a window apart. */
  ghost predicate Grouped(times: seq<int>, starts: seq<nat>, size: nat) {
    && (forall i, j :: 0 <= i <= j < |times| ==> times[i] <= times[j])
    && (times != [] ==> starts != [] && starts[0] == 0)
    && (forall g :: 0 <= g < |starts| ==> starts[g] < |times|)
    && (forall g, h :: 0 <= g < h < |starts| && h == g + 1 ==>
          && starts[g] < starts[h] <= starts[g] + size
          && times[starts[g]] + WINDOW <= times[starts[h]])
    && (starts != [] ==> |times| <= starts[|starts| - 1] + size)
  }

  lemma FailureJoinsGroup(times: seq<int>, starts: seq<nat>, t: int, size: nat)
    requires Grouped(times, starts, size) && starts != [] && |times| + 1 - starts[|starts| - 1] <= size
    requires forall x :: x in times ==> x <= t
    ensures Grouped(times + [t], starts, size)
  {
    var times' := times + [t];
    assert forall i :: 0 <= i < |times| ==> times'[i] == times[i] && times[i] in times;
  }

  lemma FailureOpensGroup(times: seq<int>, starts: seq<nat>, t: int, size: nat)
    requires Grouped(times, starts, size) && size >= 1
    requires starts != [] ==> t - times[starts[|starts| - 1]] >= WINDOW
    requires forall x :: x in times ==> x <= t
    ensures Grouped(times + [t], starts + [|times|], size)
  {
    var times', starts' := times + [t], starts + [|times|];
    assert forall i :: 0 <= i < |times| ==> times'[i] == times[i] && times[i] in times;
    forall g, h | 0 <= g < h < |starts'| && h == g + 1
      ensures starts'[g] < starts'[h] <= starts'[g] + size
      ensures times'[starts'[g]] + WINDOW <= times'[starts'[h]]
    {
      assert starts'[g] == starts[g];
      if h < |starts| {
        assert starts'[h] == starts[h];
      }
    }
  }

  /** The limiter's count bounds the group a failure joins. */
  lemma EventKeepsGroups(m: Attempts, ip: Ip, times: seq<int>, starts: seq<nat>, size: nat, now: int, e: Event)
    requires EntryIsWindow(m, ip, times, starts, now) && now <= e.at && size >= 1
    requires forall x :: x in times ==> x <= e.at
    requires Grouped(times, starts, size) && CountOf(Apply(m, e), ip) <= size
    ensures Grouped(FailuresWith(times, e, ip), StartsWith(times, starts, e, ip), size)
  {
    if e.kind.Fail? && e.ip == ip {
      if ip in m {
        ExpiredIsWindow(m[ip], e.at);
      }
      if starts == [] || e.at - times[starts[|starts| - 1]] >= WINDOW {
        FailureOpensGroup(times, starts, e.at, size);
      } else {
        FailureJoinsGroup(times, starts, e.at, size);
      }
    }
  }

  /** The conditions of the interval results. */
  ghost predicate Steady(events: seq<Event>, ip: Ip, k: nat) {
    Sorted(events) && AtMostPending(events, ip, k) && k >= 1
  }

  /** With the windows of the failures before it known to be groups, an event leaves groups. */
  lemma GroupsStep(m: Attempts, ip: Ip, times: seq<int>, size: nat, now: int, e: Event)
    requires EntryIsWindow(m, ip, times, WindowStarts(times), now) && now <= e.at && size >= 1
    requires (forall x :: x in times ==> x <= now) && CountOf(Apply(m, e), ip) <= size
    requires Grouped(times, WindowStarts(times), size)
    ensures Grouped(FailuresWith(times, e, ip), WindowStarts(FailuresWith(times, e, ip)), size)
  {
    EventKeepsGroups(m, ip, times, WindowStarts(times), size, now, e);
    StartsStep(times, e, ip);
  }

  /** What the failures and the count of a run are after its last event. */
  lemma LastEvent(events: seq<Event>, ip: Ip)
    requires events != []
    ensures var before, e := events[..|events| - 1], events[|events| - 1];
            && Final(map[], events) == Apply(Final(map[], before), e)
            && Failures(events, ip) == FailuresWith(Failures(before, ip), e, ip)
  {
  }

  lemma WindowBefore(events: seq<Event>, ip: Ip)
    requires events != [] && Sorted(events)
    ensures var before, e := events[..|events| - 1], events[|events| - 1];
            var times, now := Failures(before, ip), LastTime(before, e.at);
            && EntryIsWindow(Final(map[], before), ip, times, WindowStarts(times), now)
            && now <= e.at && forall x :: x in times ==> x <= now
  {
    PrefixSorted(events);
    EntryTracksWindow(events[..|events| - 1], ip, events[|events| - 1].at);
    FailuresPast(events[..|events| - 1], ip, events[|events| - 1].at);
  }

  ghost predicate CountsWithin(events: seq<Event>, ip: Ip, size: nat) {
    CountOf(Final(map[], events), ip) <= size && (events != [] ==> CountsWithin(events[..|events| - 1], ip, size))
  }

  lemma {:induction false} PendingBoundsCounts(events: seq<Event>, ip: Ip, k: nat)
    requires AtMostPending(events, ip, k)
    ensures CountsWithin(events, ip, MAX_ATTEMPTS - 1 + k)
  {
    CountStaysBelow(events, ip, k);
    if events != [] {
      PendingBoundsCounts(events[..|events| - 1], ip, k);
    }
  }

  lemma {:induction false} CountsGroup(events: seq<Event>, ip: Ip, size: nat)
    requires Sorted(events) && CountsWithin(events, ip, size) && size >= 1
    ensures Grouped(Failures(events, ip), WindowStarts(Failures(events, ip)), size)
  {
    if events != [] {
      var before, e := events[..|events| - 1], events[|events| - 1];
      PrefixSorted(events);
      CountsGroup(before, ip, size);
      WindowBefore(events, ip);
      LastEvent(events, ip);
      GroupsStep(Final(map[], before), ip, Failures(before, ip), size, LastTime(before, e.at), e);
    }
  }

  /** The window of the i-th failure. */
  lemma {:induction false} WindowOf(times: seq<int>, starts: seq<nat>, size: nat, i: nat, g: nat) returns (r: nat)
    requires Grouped(times, starts, size) && i < |times| && g < |starts| && starts[g] <= i
    ensures r < |starts| && starts[r] <= i && (r + 1 < |starts| ==> i < starts[r + 1])
    decreases |starts| - g
  {
    if g + 1 < |starts| && starts[g + 1] <= i {
      r := WindowOf(times, starts, size, i, g + 1);
    } else {
      r := g;
    }
  }

  /** Failures 2·size - 1 apart are at least a window apart. */
  lemma SpacedOut(times: seq<int>, starts: seq<nat>, size: nat, i: nat)
    requires Grouped(times, starts, size) && size >= 1 && i + 2 * size - 1 < |times|
    ensures times[i] + WINDOW <= times[i + 2 * size - 1]
  {
    var g := WindowOf(times, starts, size, i, 0);
    if starts[g] == i {
      assert g + 1 < |starts| && starts[g + 1] <= i + size;
    } else {
      assert g + 1 < |starts| && starts[g + 1] <= i - 1 + size;
      assert g + 2 < |starts| && starts[g + 2] <= i - 1 + 2 * size;
    }
  }

  lemma {:induction false} SmallSet(xs: set<int>, low: int, n: nat)
    requires forall x :: x in xs ==> low <= x < low + n
    ensures |xs| <= n
  {
    if n == 0 {
      assert forall x :: x !in xs;
      assert xs == {};
    } else {
      SmallSet(xs - {low + n - 1}, low, n - 1);
    }
  }

  function Within(times: seq<int>, from: int): set<int> {
    set i | 0 <= i < |times| && from <= times[i] < from + WINDOW
  }

  /** The first failure from index `i` on that falls into the interval. */
  function FirstWithin(times: seq<int>, from: int, i: nat): (r: nat)
    requires i <= |times|
    ensures i <= r <= |times| && (r < |times| ==> from <= times[r] < from + WINDOW)
    ensures forall j :: i <= j < r ==> !(from <= times[j] < from + WINDOW)
    decreases |times| - i
  {
    if i == |times| || from <= times[i] < from + WINDOW then i else FirstWithin(times, from, i + 1)
  }

  lemma FewWithin(times: seq<int>, starts: seq<nat>, size: nat, from: int)
    requires Grouped(times, starts, size) && size >= 1
    ensures |Within(times, from)| <= 2 * size - 1
  {
    var low := FirstWithin(times, from, 0);
    forall x | x in Within(times, from)
      ensures low <= x < low + (2 * size - 1)
    {
      if x >= low + (2 * size - 1) {
        SpacedOut(times, starts, size, low);
      }
    }
    SmallSet(Within(times, from), low, 2 * size - 1);
  }

  lemma CountsInInterval(events: seq<Event>, ip: Ip, size: nat, from: int)
    requires Sorted(events) && CountsWithin(events, ip, size) && size >= 1
    ensures |Within(Failures(events, ip), from)| <= 2 * size - 1
  {
    CountsGroup(events, ip, size);
    FewWithin(Failures(events, ip), WindowStarts(Failures(events, ip)), size, from);
  }

  /** Any half-open 15-minute interval holds at most 2(max - 1 + k) - 1 failures of an address since its
      last reset; one handler at a time makes that 9. */
  lemma FailuresInInterval(events: seq<Event>, ip: Ip, k: nat, from: int)
    requires Steady(events, ip, k)
    ensures |Within(Failures(events, ip), from)| <= 2 * (MAX_ATTEMPTS - 1 + k) - 1
    ensures k == 1 ==> |Within(Failures(events, ip), from)| <= 9
  {
    PendingBoundsCounts(events, ip, k);
    CountsInInterval(events, ip, MAX_ATTEMPTS - 1 + k, from);
  }

  lemma {:induction false} WindowsTakeTime(times: seq<int>, starts: seq<nat>, size: nat, g: nat)
    requires Grouped(times, starts, size) && g < |starts|
    ensures times[0] + g * WINDOW <= times[starts[g]]
    ensures starts[g] <= g * size
  {
    if g > 0 {
      WindowsTakeTime(times, starts, size, g - 1);
      assert g * size == (g - 1) * size + size;
      assert starts[(g - 1)] < starts[(g - 1) + 1] <= starts[g - 1] + size;
    }
  }

  lemma ManyWindows(g: nat, n: nat, size: nat)
    requires g <= n
    ensures (g + 1) * size <= (n + 1) * size
  {
    assert (n - g) * size >= 0;
  }

  lemma CountsInRun(events: seq<Event>, ip: Ip, size: nat)
    requires Sorted(events) && CountsWithin(events, ip, size) && size >= 1 && Failures(events, ip) != []
    ensures var times := Failures(events, ip);
            var span := times[|times| - 1] - times[0];
            span >= 0 && |times| <= size * (Minutes(span) / WINDOW_MINUTES + 1)
  {
    CountsGroup(events, ip, size);
    FewInSpan(Failures(events, ip), WindowStarts(Failures(events, ip)), size);
  }

  /** A run whose failures span D minutes holds at most (max - 1 + k)·(D / 15 + 1) of them. */
  lemma FailuresInRun(events: seq<Event>, ip: Ip, k: nat)
    requires Steady(events, ip, k)
    requires Failures(events, ip) != []
    ensures var times := Failures(events, ip);
            var span := times[|times| - 1] - times[0];
            && span >= 0
            && |times| <= (MAX_ATTEMPTS - 1 + k) * (Minutes(span) / WINDOW_MINUTES + 1)
  {
    PendingBoundsCounts(events, ip, k);
    CountsInRun(events, ip, MAX_ATTEMPTS - 1 + k);
  }

  lemma SpanWindows(span: nat)
    ensures Minutes(span) / WINDOW_MINUTES == span / WINDOW
  {
  }

  lemma FewInSpan(times: seq<int>, starts: seq<nat>, size: nat)
    requires Grouped(times, starts, size) && times != []
    ensures var span := times[|times| - 1] - times[0];
            span >= 0 && |times| <= size * (Minutes(span) / WINDOW_MINUTES + 1)
  {
    var g := |starts| - 1;
    WindowsTakeTime(times, starts, size, g);
    var span := times[|times| - 1] - times[0];
    SpanWindows(span);
    assert times[starts[g]] <= times[|times| - 1];
    assert g * WINDOW <= span;
    ManyWindows(g, span / WINDOW, size);
    assert |times| <= g * size + size;
  }

  // ------------------------------------------------------------- the advised wait

  /** No reset of `ip`, and its failures fall before `end`. */
  ghost predicate WindowUndisturbed(events: seq<Event>, ip: Ip, end: int) {
    forall e :: e in events && e.ip == ip ==> !e.kind.Succeed? && (e.kind.Fail? ==> e.at < end)
  }

  /** Within the window the entry stays and only grows; after it, it may go. */
  ghost predicate Blocked(m: Attempts, ip: Ip, start: int, now: int) {
    && (ip in m ==> m[ip].start == start && m[ip].count >= MAX_ATTEMPTS)
    && (ip !in m ==> now >= start + WINDOW)
  }

  lemma ApplyKeepsBlocked(m: Attempts, ip: Ip, start: int, now: int, e: Event)
    requires Blocked(m, ip, start, now) && start <= now <= e.at
    requires e.ip == ip ==> !e.kind.Succeed? && (e.kind.Fail? ==> e.at < start + WINDOW)
    ensures Blocked(Apply(m, e), ip, start, e.at)
  {
    if ip in m {
      ExpiredIsWindow(m[ip], e.at);
    }
  }

  lemma {:induction false} StaysBlocked(m: Attempts, events: seq<Event>, ip: Ip, start: int, now: int)
    requires Blocked(m, ip, start, now) && start <= now && Sorted(events)
    requires forall e :: e in events ==> now <= e.at
    requires WindowUndisturbed(events, ip, start + WINDOW)
    ensures Blocked(Final(m, events), ip, start, LastTime(events, now))
  {
    if events != [] {
      var before, e := events[..|events| - 1], events[|events| - 1];
      PrefixSorted(events);
      assert e in events && forall x :: x in before ==> x in events;
      StaysBlocked(m, before, ip, start, now);
      assert before != [] ==> before[|before| - 1] in before;
      ApplyKeepsBlocked(Final(m, before), ip, start, LastTime(before, now), e);
    }
  }

  /** A refusal advises 1 to 15 minutes, less than a minute more than what is left of the window; and
      as long as no failure is recorded after the window, exactly the checks before its end are
      refused, however many failures fall inside it. So waiting as advised is always enough. */
  lemma AdvisedWaitIsRight(m: Attempts, ip: Ip, now: int, events: seq<Event>, later: int)
    requires CheckVerdict(m, ip, now).Refused? && m[ip].start <= now
    requires Sorted(events) && forall e :: e in events ==> now <= e.at <= later
    requires WindowUndisturbed(events, ip, m[ip].start + WINDOW) && now <= later
    ensures var minutes, end := CheckVerdict(m, ip, now).minutes, m[ip].start + WINDOW;
            && 1 <= minutes <= 15
            && 0 <= now + minutes * MINUTE - end < MINUTE
            && (CheckVerdict(Final(Checked(m, ip, now), events), ip, later).Refused? <==> later < end)
            && (later >= now + minutes * MINUTE ==>
                CheckVerdict(Final(Checked(m, ip, now), events), ip, later).Allowed?)
  {
    var start := m[ip].start;
    ExpiredIsWindow(m[ip], now);
    assert Blocked(Checked(m, ip, now), ip, start, now);
    StaysBlocked(Checked(m, ip, now), events, ip, start, now);
    var m' := Final(Checked(m, ip, now), events);
    assert events != [] ==> events[|events| - 1] in events;
    if ip in m' {
      ExpiredIsWindow(m'[ip], later);
    }
  }
}
