/** When a certificate is checked and its renewal retried, and how long a fetch from the CA takes. Times and
    durations are in nanoseconds. */
module RenewalTiming {
  import opened Wrappers
  import opened Wire
  import opened Balance
  import opened Renewal

  const SECOND: nat := 1_000_000_000
  const HOUR: nat := 3600 * SECOND

  const DEFAULT_RENEW_BEFORE: nat := 7 * 24 * HOUR
  const DEFAULT_CHECK_INTERVAL: nat := 12 * HOUR
  const RETRY_INTERVAL: nat := HOUR
  const DEFAULT_POLL_INTERVAL: nat := 20 * SECOND

  /** How long before expiry to renew, and how often to check. */
  datatype Schedule = Schedule(before: int, every: int)

  /** newAutoRenewer: no renewer without somewhere to save, or when switched off; the times given are kept, the others
      are defaults. */
  function NewAutoRenewer(hasOnRenewed: bool, renewBefore: int, checkInterval: int): (r: Option<Schedule>)
    ensures r.Some? <==> hasOnRenewed && renewBefore >= 0
    ensures r.Some? ==> r.value.before > 0 && r.value.every > 0
    ensures r.Some? && r.value.before != DEFAULT_RENEW_BEFORE ==> r.value.before == renewBefore
    ensures r.Some? && r.value.every != DEFAULT_CHECK_INTERVAL ==> r.value.every == checkInterval
    ensures r.Some? && renewBefore > 0 ==> r.value.before == renewBefore
    ensures r.Some? && checkInterval > 0 ==> r.value.every == checkInterval
    ensures r.Some? && renewBefore == 0 ==> r.value.before == 604_800_000_000_000
    ensures r.Some? && checkInterval <= 0 ==> r.value.every == 43_200_000_000_000
  {
    if !hasOnRenewed || renewBefore < 0 then None
    else Some(Schedule(if renewBefore == 0 then DEFAULT_RENEW_BEFORE else renewBefore,
                       if checkInterval <= 0 then DEFAULT_CHECK_INTERVAL else checkInterval))
  }

  /** How an attempt to renew ends: with an error, with the certificate already held, or with one that expires lifetime
      after the attempt. */
  datatype Attempt = Fails | Same | Renews(lifetime: int)

  datatype Try = Try(at: int, outcome: Attempt)

  /** How long run sleeps after an attempt. */
  function Wait(s: Schedule, outcome: Attempt): int {
    if outcome.Fails? then Min(s.every, RETRY_INTERVAL) else s.every
  }

  /** The last attempt renewed the certificate. */
  predicate Succeeded(tries: seq<Try>) { tries != [] && tries[|tries| - 1].outcome.Renews? }

  /** The attempts to renew a certificate, by the checks before the next-th: each in the window before expiry and of its
      check's outcome, none after a renewal, and from each to the next, or from the last to end, the sleep and a check
      of at most longest. */
  predicate Logged(s: Schedule, longest: nat, attempt: nat -> Attempt, expiry: int, tries: seq<Try>, end: int,
                   next: nat)
  {
    tries == [] ||
    (var before, last := tries[..|tries| - 1], tries[|tries| - 1];
     && expiry - s.before <= last.at < expiry
     && next > 0 && last.outcome == attempt(next - 1) && !Succeeded(before)
     && last.at + Wait(s, last.outcome) <= end <= last.at + Wait(s, last.outcome) + longest
     && Logged(s, longest, attempt, expiry, before, last.at, next - 1))
  }

  lemma LoggedNext(s: Schedule, longest: nat, attempt: nat -> Attempt, expiry: int, tries: seq<Try>, now: int,
                   next: nat, end: int)
    requires Logged(s, longest, attempt, expiry, tries, now, next) && !Succeeded(tries)
    requires expiry - s.before <= now < expiry
    requires now + Wait(s, attempt(next)) <= end <= now + Wait(s, attempt(next)) + longest
    ensures Logged(s, longest, attempt, expiry, tries + [Try(now, attempt(next))], end, next + 1)
  {
    assert (tries + [Try(now, attempt(next))])[..|tries|] == tries;
  }

  /** The i-th of the attempts on its own. */
  lemma {:induction false} LoggedAt(s: Schedule, longest: nat, attempt: nat -> Attempt, expiry: int, tries: seq<Try>,
                                    end: int, next: nat, i: nat)
    requires Logged(s, longest, attempt, expiry, tries, end, next) && i < |tries|
    ensures |tries| <= next && tries[i].outcome == attempt(next - |tries| + i)
    ensures expiry - s.before <= tries[i].at < expiry && (i < |tries| - 1 ==> !tries[i].outcome.Renews?)
    decreases |tries|
  {
    var n := |tries|;
    if i < n - 1 {
      LoggedAt(s, longest, attempt, expiry, tries[..n - 1], tries[n - 1].at, next - 1, i);
      assert tries[..n - 1][i] == tries[i];
      if i == n - 2 {
        assert !Succeeded(tries[..n - 1]);
      }
    } else if n > 1 {
      LoggedAt(s, longest, attempt, expiry, tries[..n - 1], tries[n - 1].at, next - 1, n - 2);
    }
  }

  /** Between one attempt and the next lies the sleep, an hour or the interval if that is shorter after a failure and
      the interval otherwise, and a check of at most longest; and so from the last to end. */
  lemma {:induction false} SleepsBetween(s: Schedule, longest: nat, attempt: nat -> Attempt, expiry: int,
                                         tries: seq<Try>, end: int, next: nat, i: nat)
    requires Logged(s, longest, attempt, expiry, tries, end, next) && i < |tries|
    ensures
      var later := if i + 1 < |tries| then tries[i + 1].at else end;
      var sleep := if tries[i].outcome.Fails? && s.every > 3_600_000_000_000 then 3_600_000_000_000 else s.every;
      tries[i].at + sleep <= later <= tries[i].at + sleep + longest
    decreases |tries|
  {
    var n := |tries|;
    if i < n - 1 {
      SleepsBetween(s, longest, attempt, expiry, tries[..n - 1], tries[n - 1].at, next - 1, i);
    }
  }

  lemma {:induction false} LoggedSpan(s: Schedule, longest: nat, attempt: nat -> Attempt, expiry: int, tries: seq<Try>,
                                      end: int, next: nat, high: nat)
    requires tries != [] && Logged(s, longest, attempt, expiry, tries, end, next)
    requires forall t :: t in tries ==> Wait(s, t.outcome) + longest <= high
    ensures end <= tries[0].at + Turns(|tries|, high)
  {
    var n := |tries|;
    assert tries[n - 1] in tries;
    if n > 1 {
      LoggedSpan(s, longest, attempt, expiry, tries[..n - 1], tries[n - 1].at, next - 1, high);
    }
  }

  lemma TurnsNeeded(count: nat, high: nat, span: nat)
    requires high > 0 && span < Turns(count, high)
    ensures 1 + span / high <= count
  {
    TurnsIs(count, high);
    if count <= span / high {
      MulMono(count, span / high, high);
    }
  }

  /** So many tries, never further apart than high, are what it takes to fill a span. */
  lemma TriesNeeded(s: Schedule, longest: nat, attempt: nat -> Attempt, expiry: int, tries: seq<Try>, end: int,
                    next: nat, high: nat, span: nat)
    requires tries != [] && Logged(s, longest, attempt, expiry, tries, end, next)
    requires high > 0 && tries[0].at + span < end
    requires forall t :: t in tries ==> Wait(s, t.outcome) + longest <= high
    ensures 1 + span / high <= |tries|
  {
    LoggedSpan(s, longest, attempt, expiry, tries, end, next, high);
    TurnsNeeded(|tries|, high, span);
  }

  /** The loop of run, until the certificate expires or is renewed. The n-th check takes took(n) and, if the
      certificate is due, ends as attempt(n) says; the first is the m-th. end is when the next check, the next-th,
      comes. */
  method RunUntilExpiry(s: Schedule, start: int, expiry: int, m: nat, took: nat -> nat, attempt: nat -> Attempt,
                        ghost longest: nat)
    returns (tries: seq<Try>, end: int, next: nat)
    requires s.every > 0
    requires forall n: nat :: took(n) <= longest
    ensures m + |tries| <= next && Logged(s, longest, attempt, expiry, tries, end, next)
    ensures end >= expiry || Succeeded(tries)
    ensures start < expiry && s.every + longest <= s.before ==> tries != []
    ensures start < expiry - s.before && tries != [] ==> tries[0].at < expiry - s.before + s.every + longest
  {
    tries, end, next := [], start, m;
    while end < expiry && !Succeeded(tries)
      invariant tries == [] ==> end == start || end < expiry - s.before + s.every + longest
      invariant tries != [] ==> end >= expiry - s.before
      invariant tries != [] && start < expiry - s.before ==> tries[0].at < expiry - s.before + s.every + longest
      invariant m + |tries| <= next && Logged(s, longest, attempt, expiry, tries, end, next)
      decreases expiry - end
    {
      var due := Due(expiry, s.before, end);
      var wait := s.every;
      if due && attempt(next).Fails? {
        wait := Min(wait, RETRY_INTERVAL);
      }
      var later := end + took(next) + wait;
      if due {
        LoggedNext(s, longest, attempt, expiry, tries, end, next, later);
        tries := tries + [Try(end, attempt(next))];
      }
      end, next := later, next + 1;
    }
  }

  /** No wait after an unsuccessful attempt, with the check that follows, is longer than high. */
  lemma NeverFurther(s: Schedule, longest: nat, attempt: nat -> Attempt, expiry: int, tries: seq<Try>, end: int,
                     next: nat, high: int)
    requires Logged(s, longest, attempt, expiry, tries, end, next) && !Succeeded(tries)
    requires forall n: nat :: !attempt(n).Renews? ==> Wait(s, attempt(n)) + longest <= high
    ensures forall t :: t in tries ==> Wait(s, t.outcome) + longest <= high
  {
    forall t | t in tries ensures Wait(s, t.outcome) + longest <= high {
      var i :| 0 <= i < |tries| && tries[i] == t;
      LoggedAt(s, longest, attempt, expiry, tries, end, next, i);
    }
  }

  /** While every attempt fails, so many are made before the certificate expires, if the first check finds it not due
      yet. */
  method RunFailing(s: Schedule, start: int, expiry: int, took: nat -> nat, attempt: nat -> Attempt, ghost longest: nat)
    returns (tries: seq<Try>)
    requires s.every > 0 && s.every + longest <= s.before && start < expiry - s.before
    requires forall n: nat :: took(n) <= longest && attempt(n).Fails?
    ensures forall i :: 0 <= i < |tries| ==> expiry - s.before <= tries[i].at < expiry
    ensures |tries| >= 1 + (s.before - s.every - longest) / (Min(s.every, 3_600_000_000_000) + longest)
  {
    var end, next;
    tries, end, next := RunUntilExpiry(s, start, expiry, 0, took, attempt, longest);
    forall i | 0 <= i < |tries| ensures expiry - s.before <= tries[i].at < expiry && !tries[i].outcome.Renews? {
      LoggedAt(s, longest, attempt, expiry, tries, end, next, i);
    }
    EnoughTries(s, longest, attempt, expiry, tries, end, next, Min(s.every, RETRY_INTERVAL) + longest);
  }

  /** How many attempts, at most high apart, are sure to be made before a certificate expires. */
  function SureTries(s: Schedule, longest: nat, high: int): nat
    requires high > 0 && s.every + longest <= s.before
  {
    1 + (s.before - s.every - longest) / high
  }

  /** So many are made if none of them renews. */
  lemma EnoughTries(s: Schedule, longest: nat, attempt: nat -> Attempt, expiry: int, tries: seq<Try>, end: int,
                    next: nat, high: int)
    requires s.every + longest <= s.before && high > 0
    requires tries != [] && tries[0].at < expiry - s.before + s.every + longest && end >= expiry && !Succeeded(tries)
    requires Logged(s, longest, attempt, expiry, tries, end, next)
    requires forall n: nat :: !attempt(n).Renews? ==> Wait(s, attempt(n)) + longest <= high
    ensures |tries| >= SureTries(s, longest, high)
  {
    NeverFurther(s, longest, attempt, expiry, tries, end, next, high);
    TriesNeeded(s, longest, attempt, expiry, tries, end, next, high, s.before - s.every - longest);
  }

  /** One of the n-th and the next count - 1 attempts renews. */
  ghost predicate RenewsWithin(attempt: nat -> Attempt, n: nat, count: nat) {
    exists i :: n <= i < n + count && attempt(i).Renews?
  }

  /** A run of attempts without a renewal is shorter than any run that has one. */
  lemma FailuresAreFew(s: Schedule, longest: nat, attempt: nat -> Attempt, expiry: int, tries: seq<Try>, end: int,
                       next: nat, count: nat)
    requires Logged(s, longest, attempt, expiry, tries, end, next) && !Succeeded(tries) && |tries| <= next
    requires RenewsWithin(attempt, next - |tries|, count)
    ensures |tries| < count
  {
    var n :| next - |tries| <= n < next - |tries| + count && attempt(n).Renews?;
    if n < next {
      LoggedAt(s, longest, attempt, expiry, tries, end, next, n - (next - |tries|));
    }
  }

  /** The attempts of a run that starts before the certificate is due end in a renewal, if the CA never goes so many
      attempts without one. */
  lemma RenewedInTime(s: Schedule, longest: nat, attempt: nat -> Attempt, expiry: int, tries: seq<Try>, end: int,
                      next: nat, high: int)
    requires s.every + longest <= s.before && high > 0 && |tries| <= next
    requires tries != [] && tries[0].at < expiry - s.before + s.every + longest
    requires Logged(s, longest, attempt, expiry, tries, end, next) && (end >= expiry || Succeeded(tries))
    requires forall n: nat :: !attempt(n).Renews? ==> Wait(s, attempt(n)) + longest <= high
    requires RenewsWithin(attempt, next - |tries|, SureTries(s, longest, high))
    ensures Succeeded(tries)
  {
    if !Succeeded(tries) {
      EnoughTries(s, longest, attempt, expiry, tries, end, next, high);
      FailuresAreFew(s, longest, attempt, expiry, tries, end, next, SureTries(s, longest, high));
    }
  }

  /** From renewal to renewal. The CA may fail, or answer with the certificate already held, as long as it never does so
      in as many attempts in a row as are sure to be made before a certificate expires: then every check begins while
      the certificate in use is valid. high is the longest from one unsuccessful attempt to the next: when all of
      those fail, the retry interval and a check. */
  method RunDespiteFailures(s: Schedule, start: int, firstExpiry: int, took: nat -> nat, attempt: nat -> Attempt,
                            ghost longest: nat, ghost high: int, rounds: nat)
    returns (expiry: int, end: int)
    requires s.every > 0 && start < firstExpiry - s.before && s.every + longest <= s.before && high > 0
    requires forall n: nat :: took(n) <= longest
    requires forall n: nat :: attempt(n).Renews? ==> attempt(n).lifetime > s.before + s.every + longest
    requires forall n: nat :: !attempt(n).Renews? ==> Wait(s, attempt(n)) + longest <= high
    requires forall n: nat :: RenewsWithin(attempt, n, SureTries(s, longest, high))
    ensures end < expiry - s.before
  {
    expiry, end := firstExpiry, start;
    var m := 0;
    for i := 0 to rounds
      invariant end < expiry - s.before
    {
      var tries, later, next := RunUntilExpiry(s, end, expiry, m, took, attempt, longest);
      RenewedInTime(s, longest, attempt, expiry, tries, later, next, high);
      var last := tries[|tries| - 1];
      expiry, end, m := last.at + last.outcome.lifetime, later, next;
    }
  }

  /** When the CA renews whenever asked it is enough that certificates outlast an interval and a check. */
  method RunRenewals(s: Schedule, start: int, firstExpiry: int, took: nat -> nat, attempt: nat -> Attempt,
                     ghost longest: nat, rounds: nat)
    returns (expiry: int, end: int)
    requires s.every > 0 && start < firstExpiry && s.every + longest <= s.before
    requires forall n: nat :: took(n) <= longest && attempt(n).Renews? && attempt(n).lifetime > s.every + longest
    ensures end < expiry
  {
    expiry, end := firstExpiry, start;
    var m := 0;
    for i := 0 to rounds
      invariant end < expiry
    {
      var tries, later, next := RunUntilExpiry(s, end, expiry, m, took, attempt, longest);
      var last := tries[|tries| - 1];
      expiry, end, m := last.at + last.outcome.lifetime, later, next;
    }
  }

  // ---- Fetch ----

  /** What the CA says to one question. */
  datatype Reply = Issued(chain: Bytes, key: Bytes) | Undecodable | Accepted | Other | Broken

  /** One question: how long the reply takes, and whether it wins a tie with the deadline. */
  datatype Answer = Answer(took: nat, reply: Reply, inTime: bool)

  datatype Fetched = Got(pair: Pair) | BadReply | NotIssuedYet | Refusal | AskFailed

  const NULL_TEXT: Bytes := [110, 117, 108, 108]

  /** parseCARenewResponse: an issued certificate comes with its own key. */
  function ParseRenewal(crypto: Crypto, reply: Reply): (r: Fetched)
    requires reply.Issued? || reply.Undecodable?
    ensures r.Got? || r.BadReply?
    ensures r.Got? ==> reply == Issued(r.pair.cert, r.pair.key)
    ensures r.Got? <==>
      && reply.Issued? && crypto.keyFits(reply.chain, reply.key)
      && reply.chain !in {[], NULL_TEXT} && reply.key !in {[], NULL_TEXT}
  {
    if reply.Undecodable? then BadReply
    else if reply.chain == [] || reply.key == [] || reply.chain == NULL_TEXT || reply.key == NULL_TEXT then BadReply
    else if !crypto.keyFits(reply.chain, reply.key) then BadReply
    else Got(Pair(reply.chain, reply.key))
  }

  /** When the n-th question is asked, if all before it are answered "accepted". */
  function AskedAt(ask: nat -> Answer, start: int, pollInterval: nat, n: nat): int {
    if n == 0 then start else AskedAt(ask, start, pollInterval, n - 1) + ask(n - 1).took + pollInterval
  }

  /** An issued certificate that is whole and fits its key. */
  predicate Usable(crypto: Crypto, reply: Reply) {
    && reply.Issued? && reply.chain != [] && reply.key != []
    && reply.chain != [110, 117, 108, 108] && reply.key != [110, 117, 108, 108]
    && crypto.keyFits(reply.chain, reply.key)
  }

  /** How long Fetch waits before it asks again: as configured, or 20 seconds. */
  function PollInterval(configured: int): (r: nat)
    ensures r == if configured > 0 then configured else 20_000_000_000
  {
    if configured <= 0 then DEFAULT_POLL_INTERVAL else configured
  }

  /** Fetch under a deadline. ask(n) is the n-th reply, and timerFirst(n) which branch of the select fires when the
      poll timer and the deadline meet. asked is when the last question was asked. */
  method Fetch(crypto: Crypto, ask: nat -> Answer, timerFirst: nat -> bool, start: int, deadline: int,
               configured: int)
    returns (r: Fetched, polls: nat, end: int, asked: int)
    ensures polls > 0 && end <= Max(start, deadline)
    ensures start <= deadline ==> polls <= 1 + (deadline - start) / PollInterval(configured)
    ensures forall n :: 0 <= n < polls - 1 ==> ask(n).reply.Accepted?
    ensures asked == AskedAt(ask, start, PollInterval(configured), polls - 1)
    // the last question is answered before the deadline, and the answer decides
    ensures
      var last := ask(polls - 1);
      asked + last.took < deadline ==>
        && (last.reply.Issued? ==>
              if Usable(crypto, last.reply) then r == Got(Pair(last.reply.chain, last.reply.key)) else r == BadReply)
        && (last.reply.Undecodable? ==> r == BadReply)
        && (last.reply.Other? ==> r == Refusal)
        && (last.reply.Broken? ==> r == AskFailed)
        && (last.reply.Accepted? ==> r == NotIssuedYet && deadline <= asked + last.took + PollInterval(configured))
    // or it is not
    ensures asked + ask(polls - 1).took > deadline ==> r == if polls > 1 then NotIssuedYet else AskFailed
    ensures r.Got? ==>
      ask(polls - 1).reply == Issued(r.pair.cert, r.pair.key) && crypto.keyFits(r.pair.cert, r.pair.key)
    ensures r.NotIssuedYet? ==> end >= deadline && (polls > 1 || ask(0).reply.Accepted?)
    ensures r.AskFailed? && end >= deadline ==> polls == 1
    ensures r.Refusal? ==> ask(polls - 1).reply.Other?
    ensures r.AskFailed? ==> ask(polls - 1).reply.Broken? || end >= deadline
    ensures r.BadReply? ==>
      var last := ask(polls - 1).reply;
      && (last.Undecodable? || last.Issued?)
      && !(&& last.Issued? && last.chain != [] && last.key != [] && crypto.keyFits(last.chain, last.key)
           && last.chain != [110, 117, 108, 108] && last.key != [110, 117, 108, 108])
  {
    var pollInterval := PollInterval(configured);
    var now := start;
    var accepted := false;
    polls := 0;
    asked := start;
    while true
      invariant start <= now <= Max(start, deadline)
      invariant accepted <==> polls > 0
      invariant forall n :: 0 <= n < polls ==> ask(n).reply.Accepted?
      invariant now == AskedAt(ask, start, pollInterval, polls)
      invariant now >= start + Turns(polls, pollInterval)
      decreases deadline - now
    {
      var a := ask(polls);
      polls, asked := polls + 1, now;
      if start <= deadline {
        TurnsIs(polls - 1, pollInterval);
        PollsWithin(polls, pollInterval, deadline - start);
      }
      var answered := now + a.took < deadline || (now + a.took == deadline && a.inTime);
      if answered {
        now := now + a.took;
      } else {
        now := Max(now, deadline);
      }
      if !answered || a.reply.Broken? {
        if accepted && now >= deadline {
          return NotIssuedYet, polls, now, asked;
        }
        return AskFailed, polls, now, asked;
      }
      if a.reply.Accepted? {
        accepted := true;
        if now + pollInterval > deadline || (now + pollInterval == deadline && !timerFirst(polls)) {
          now := Max(now, deadline);
          return NotIssuedYet, polls, now, asked;
        }
        now := now + pollInterval;
      } else if a.reply.Other? {
        return Refusal, polls, now, asked;
      } else {
        return ParseRenewal(crypto, a.reply), polls, now, asked;
      }
    }
  }

  lemma PollsWithin(polls: nat, pollInterval: nat, span: nat)
    requires polls > 0 && pollInterval > 0 && (polls - 1) * pollInterval <= span
    ensures polls <= 1 + span / pollInterval
  {
    DivAtLeast(span, polls - 1, pollInterval);
  }
}
