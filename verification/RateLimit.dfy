/** src/rate_limit.rs: failed attempts per address in fixed windows. */
module RateLimit {

  type Ip = int

  /** Time is in nanoseconds. */
  const MINUTE := 60_000_000_000
  const MAX_ATTEMPTS := 5
  const WINDOW_MINUTES := 15
  const STALE_MINUTES := 30
  const WINDOW := WINDOW_MINUTES * MINUTE

  /** chrono's `num_minutes`: whole minutes, truncated toward zero. */
  function Minutes(duration: int): int {
    if duration >= 0 then duration / MINUTE else -(-duration / MINUTE)
  }

  datatype Tracker = Tracker(count: nat, start: int)

  type Attempts = map<Ip, Tracker>

  /** The refusal advises how many minutes to wait. */
  datatype Verdict = Allowed | Refused(minutes: int)

  predicate Expired(tracker: Tracker, now: int) {
    Minutes(now - tracker.start) >= WINDOW_MINUTES
  }

  function Retained(m: Attempts, now: int): Attempts {
    map ip | ip in m && Minutes(now - m[ip].start) < STALE_MINUTES :: m[ip]
  }

  function Checked(m: Attempts, ip: Ip, now: int): Attempts {
    var kept := Retained(m, now);
    if ip in kept && Expired(kept[ip], now) then kept - {ip} else kept
  }

  function CheckVerdict(m: Attempts, ip: Ip, now: int): Verdict {
    var kept := Retained(m, now);
    if ip in kept && !Expired(kept[ip], now) && kept[ip].count >= MAX_ATTEMPTS
    then Refused(WINDOW_MINUTES - Minutes(now - kept[ip].start))
    else Allowed
  }

  function Recorded(m: Attempts, ip: Ip, now: int): Attempts {
    if ip in m && !Expired(m[ip], now) then m[ip := Tracker(m[ip].count + 1, m[ip].start)]
    else m[ip := Tracker(1, now)]
  }

  /** Times in nanoseconds: a check keeps exactly the entries younger than 30 minutes, and its own address's
      only while younger than 15, and changes none. */
  lemma CheckedExactly(m: Attempts, ip: Ip, now: int)
    ensures forall x :: x in Checked(m, ip, now) <==>
              x in m && now - m[x].start < 1_800_000_000_000 && (x == ip ==> now - m[x].start < 900_000_000_000)
    ensures forall x :: x in Checked(m, ip, now) ==> Checked(m, ip, now)[x] == m[x]
  {
    forall x | x in m
      ensures Minutes(now - m[x].start) < 30 <==> now - m[x].start < 1_800_000_000_000
      ensures Minutes(now - m[x].start) >= 15 <==> now - m[x].start >= 900_000_000_000
    {
      MinutesBelow(now - m[x].start, 30);
      MinutesBelow(now - m[x].start, 15);
    }
  }

  lemma MinutesBelow(duration: int, n: nat)
    requires n > 0
    ensures Minutes(duration) < n <==> duration < n * 60_000_000_000
  {
  }

  /** A check refuses exactly from the fifth failure on in a window younger than 15 minutes, and advises 15
      minutes less the whole minutes gone. */
  lemma VerdictExactly(m: Attempts, ip: Ip, now: int)
    ensures CheckVerdict(m, ip, now).Refused? <==>
            ip in m && now - m[ip].start < 900_000_000_000 && m[ip].count >= 5
    ensures CheckVerdict(m, ip, now).Refused? && m[ip].start <= now ==>
            CheckVerdict(m, ip, now).minutes == 15 - (now - m[ip].start) / 60_000_000_000
  {
    if ip in m {
      MinutesBelow(now - m[ip].start, 30);
      MinutesBelow(now - m[ip].start, 15);
    }
  }

  /** A failure counts into a window younger than 15 minutes and opens a new one otherwise; other addresses'
      entries stay. */
  lemma RecordedExactly(m: Attempts, ip: Ip, now: int)
    ensures Recorded(m, ip, now) ==
            m[ip := if ip in m && now - m[ip].start < 900_000_000_000 then Tracker(m[ip].count + 1, m[ip].start)
                    else Tracker(1, now)]
  {
    if ip in m {
      MinutesBelow(now - m[ip].start, 15);
    }
  }

  /** The shared map behind the write lock; each method holds the lock from start to end. */
  class RateLimiter {
    var attempts: Attempts

    constructor ()
      ensures attempts == map[]
    {
      attempts := map[];
    }

    method CheckRateLimit(ip: Ip, now: int) returns (r: Verdict)
      modifies this
      ensures attempts == Checked(old(attempts), ip, now)
      ensures r == CheckVerdict(old(attempts), ip, now)
    {
      attempts := map x | x in attempts && Minutes(now - attempts[x].start) < STALE_MINUTES :: attempts[x];
      if ip in attempts {
        var elapsed := Minutes(now - attempts[ip].start);
        if elapsed >= WINDOW_MINUTES {
          attempts := attempts - {ip};
          return Allowed;
        }
        if attempts[ip].count >= MAX_ATTEMPTS {
          return Refused(WINDOW_MINUTES - elapsed);
        }
      }
      return Allowed;
    }

    method RecordFailedAttempt(ip: Ip, now: int)
      modifies this
      ensures attempts == Recorded(old(attempts), ip, now)
    {
      if ip in attempts {
        var tracker := attempts[ip];
        var elapsed := Minutes(now - tracker.start);
        if elapsed >= WINDOW_MINUTES {
          tracker := Tracker(1, now);
        } else {
          tracker := tracker.(count := tracker.count + 1);
        }
        attempts := attempts[ip := tracker];
      } else {
        attempts := attempts[ip := Tracker(1, now)];
      }
    }

    method ResetAttempts(ip: Ip)
      modifies this
      ensures attempts == old(attempts) - {ip}
    {
      attempts := attempts - {ip};
    }

    method GetAttemptCount(ip: Ip) returns (count: nat)
      ensures count == if ip in attempts then attempts[ip].count else 0
    {
      count := if ip in attempts then attempts[ip].count else 0;
    }
  }
}
