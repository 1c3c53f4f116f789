/** The per-instance, per-address fixed-window rate limiter that both edge
    functions keep in a module-level Map. A `Policy` carries the two
    constants that differ between them (at most `limit` requests per
    `windowMs` milliseconds); the clock reading is passed in as `now`. */
module RateLimit {

  datatype Policy = Policy(limit: nat, windowMs: nat)

  /** Entries are swept only while the map holds more than this many. */
  const CleanupThreshold := 10000

  /** A window: requests admitted so far and the instant it ends. */
  datatype Record = Record(count: int, resetTime: int)

  /** What checkRateLimit returns. */
  datatype Decision = Decision(allowed: bool, remainingAttempts: int, resetInSeconds: int)

  type Table = map<string, Record>

  /** Math.ceil(x / 1000) for an integral x. */
  function CeilDiv1000(x: int): (r: int)
    ensures 1000 * (r - 1) < x <= 1000 * r
  {
    -((-x) / 1000)
  }

  /** The cleanup loop: exactly the entries whose window ended before `now`
      go, every other entry stays as it is. */
  function Sweep(m: Table, now: int): (r: Table)
    ensures r.Keys <= m.Keys
    ensures forall k :: k in r ==> r[k] == m[k] && now <= r[k].resetTime
    ensures forall k :: k in m && now <= m[k].resetTime ==> k in r
  {
    map k | k in m && m[k].resetTime >= now :: m[k]
  }

  /** One call of checkRateLimit(ip) at clock reading `now`: the decision and
      the table afterwards. The record is looked up before the sweep, as in
      the source; a record the sweep removes is one that is renewed anyway. */
  function Decide(p: Policy, m: Table, ip: string, now: int): (r: (Decision, Table))
    ensures ip in r.1
    ensures r.0.allowed <==> ip !in m || m[ip].resetTime < now || m[ip].count < p.limit
    ensures (ip !in m || m[ip].resetTime < now) ==>
              r.0 == Decision(true, p.limit - 1, CeilDiv1000(p.windowMs))
              && r.1[ip] == Record(1, now + p.windowMs)
    ensures ip in m && now <= m[ip].resetTime && m[ip].count >= p.limit ==>
              r.0 == Decision(false, 0, CeilDiv1000(m[ip].resetTime - now))
              && r.1[ip] == m[ip]
    ensures ip in m && now <= m[ip].resetTime && m[ip].count < p.limit ==>
              r.1[ip] == Record(m[ip].count + 1, m[ip].resetTime)
              && r.0 == Decision(true, p.limit - m[ip].count - 1, CeilDiv1000(m[ip].resetTime - now))
  {
    var swept := if |m| > CleanupThreshold then Sweep(m, now) else m;
    if ip !in m || m[ip].resetTime < now then
      (Decision(true, p.limit - 1, CeilDiv1000(p.windowMs)), swept[ip := Record(1, now + p.windowMs)])
    else if m[ip].count >= p.limit then
      (Decision(false, 0, CeilDiv1000(m[ip].resetTime - now)), swept)
    else
      var rec := Record(m[ip].count + 1, m[ip].resetTime);
      (Decision(true, p.limit - rec.count, CeilDiv1000(rec.resetTime - now)), swept[ip := rec])
  }

  /** Every other address keeps its record, unless the sweep (which runs only
      above the threshold) removes it because its window has ended. */
  lemma DecideFrame(p: Policy, m: Table, ip: string, now: int, k: string)
    requires k != ip
    ensures var m' := Decide(p, m, ip, now).1;
      (k in m' <==> k in m && (|m| <= CleanupThreshold || m[k].resetTime >= now))
      && (k in m' ==> m'[k] == m[k])
  {
  }

  /** The table invariant: every count lies in [1, limit], and every window
      ends at most `windowMs` after the latest clock reading seen. */
  ghost predicate WellFormed(p: Policy, m: Table, clock: int) {
    forall k :: k in m ==>
      1 <= m[k].count <= p.limit && m[k].resetTime <= clock + p.windowMs
  }

  function Max(a: int, b: int): int {
    if a < b then b else a
  }

  /** Every call keeps the invariant, whatever the clock reading. */
  lemma DecidePreservesWellFormed(p: Policy, m: Table, clock: int, ip: string, now: int)
    requires p.limit >= 1
    requires WellFormed(p, m, clock)
    ensures WellFormed(p, Decide(p, m, ip, now).1, Max(clock, now))
  {
    var m' := Decide(p, m, ip, now).1;
    forall k | k in m'
      ensures 1 <= m'[k].count <= p.limit && m'[k].resetTime <= Max(clock, now) + p.windowMs
    {
      if k != ip {
        DecideFrame(p, m, ip, now, k);
      }
    }
  }

  /** With a clock that does not run backwards, resetInSeconds lies between 0
      and the window length in seconds (3600 for sign-up, 60 for summaries). */
  lemma ResetInSecondsBounded(p: Policy, m: Table, clock: int, ip: string, now: int)
    requires WellFormed(p, m, clock)
    requires clock <= now
    ensures 0 <= Decide(p, m, ip, now).0.resetInSeconds <= CeilDiv1000(p.windowMs)
  {
    var d := Decide(p, m, ip, now).0;
    if ip in m && now <= m[ip].resetTime {
      var x := m[ip].resetTime - now;
      assert 0 <= x <= p.windowMs;
      assert d.resetInSeconds == CeilDiv1000(x);
      CeilDiv1000Monotone(x, p.windowMs);
    }
  }

  lemma CeilDiv1000Monotone(x: int, y: int)
    requires 0 <= x <= y
    ensures 0 <= CeilDiv1000(x) <= CeilDiv1000(y)
  {
  }

  /** Once an address is denied within a window, every other entry and this
      one's record are left as they were (apart from the sweep). */
  lemma DenyLeavesRecord(p: Policy, m: Table, ip: string, now: int)
    requires !Decide(p, m, ip, now).0.allowed
    ensures ip in m && Decide(p, m, ip, now).1[ip] == m[ip]
    ensures Decide(p, m, ip, now).0.remainingAttempts == 0
    ensures m[ip].count >= p.limit && now <= m[ip].resetTime
  {
  }

  /** The sweep runs only above the threshold: at or below it the table only
      gains (or keeps) the caller's entry. */
  lemma NoSweepAtOrBelowThreshold(p: Policy, m: Table, ip: string, now: int)
    requires |m| <= CleanupThreshold
    ensures Decide(p, m, ip, now).1.Keys == m.Keys + {ip}
  {
  }

  /** A request to the limiter: which address, and when. */
  datatype Request = Request(ip: string, now: int)

  /** How many of `reqs`, replayed in order from table `m`, are requests of
      address `ip` that the limiter admits. */
  function AdmittedFor(p: Policy, m: Table, reqs: seq<Request>, ip: string): nat
    decreases |reqs|
  {
    if reqs == [] then 0
    else
      var r := Decide(p, m, reqs[0].ip, reqs[0].now);
      (if reqs[0].ip == ip && r.0.allowed then 1 else 0) + AdmittedFor(p, r.1, reqs[1..], ip)
  }

  predicate CountsInRange(p: Policy, m: Table) {
    forall k :: k in m ==> 1 <= m[k].count <= p.limit
  }

  /** Within an open window of `ip` (every request, from any address, arrives
      no later than the window's end), `ip` is admitted at most as many more
      times as its record has left. */
  lemma {:induction false} AdmittedWithinWindow(p: Policy, m: Table, reqs: seq<Request>, ip: string)
    requires p.limit >= 1 && CountsInRange(p, m)
    requires ip in m
    requires forall j :: 0 <= j < |reqs| ==> reqs[j].now <= m[ip].resetTime
    ensures AdmittedFor(p, m, reqs, ip) <= p.limit - m[ip].count
    decreases |reqs|
  {
    if reqs != [] {
      var r := Decide(p, m, reqs[0].ip, reqs[0].now);
      var m' := r.1;
      assert CountsInRange(p, m') by {
        forall k | k in m' ensures 1 <= m'[k].count <= p.limit {
          if k != reqs[0].ip {
            DecideFrame(p, m, reqs[0].ip, reqs[0].now, k);
          }
        }
      }
      assert ip in m' && m'[ip].resetTime == m[ip].resetTime;
      forall j | 0 <= j < |reqs[1..]| ensures reqs[1..][j].now <= m'[ip].resetTime {
        assert reqs[1..][j] == reqs[j + 1];
      }
      AdmittedWithinWindow(p, m', reqs[1..], ip);
      if reqs[0].ip == ip && r.0.allowed {
        assert m'[ip].count == m[ip].count + 1;
      }
    }
  }

  /** At most `limit` requests of one address are admitted per window: a
      request that opens a window at `start`, followed by any requests (from
      any addresses) up to `start + windowMs`, admits that address at most
      `limit` times. */
  lemma AtMostLimitPerWindow(p: Policy, m: Table, reqs: seq<Request>, ip: string, start: int)
    requires p.limit >= 1 && CountsInRange(p, m)
    requires reqs != [] && reqs[0] == Request(ip, start)
    requires ip !in m || m[ip].resetTime < start
    requires forall j :: 0 <= j < |reqs| ==> reqs[j].now <= start + p.windowMs
    ensures AdmittedFor(p, m, reqs, ip) <= p.limit
  {
    var m' := Decide(p, m, ip, start).1;
    assert CountsInRange(p, m') by {
      forall k | k in m' ensures 1 <= m'[k].count <= p.limit {
        if k != ip {
          DecideFrame(p, m, ip, start, k);
        }
      }
    }
    forall j | 0 <= j < |reqs[1..]| ensures reqs[1..][j].now <= m'[ip].resetTime {
      assert reqs[1..][j] == reqs[j + 1];
    }
    AdmittedWithinWindow(p, m', reqs[1..], ip);
  }

  /** The module-level `rateLimitMap` together with checkRateLimit. `clock`
      is the latest clock reading seen, which the invariant needs. */
  class Limiter {
    const policy: Policy
    var records: Table
    ghost var clock: int

    ghost predicate Valid()
      reads this
    {
      policy.limit >= 1 && WellFormed(policy, records, clock)
    }

    constructor (policy: Policy, now: int)
      requires policy.limit >= 1
      ensures Valid()
      ensures this.policy == policy && records == map[] && clock == now
    {
      this.policy := policy;
      records := map[];
      clock := now;
    }

    /** The cleanup loop of checkRateLimit: every entry whose window ended
        before `now` is deleted while the map is walked. */
    method RemoveExpired(now: int)
      modifies this`records
      ensures records == Sweep(old(records), now)
    {
      ghost var m0 := records;
      var pending := records.Keys;
      while pending != {}
        invariant pending <= m0.Keys
        invariant records == map k | k in m0 && (k in pending || m0[k].resetTime >= now) :: m0[k]
        decreases pending
      {
        var key :| key in pending;
        if records[key].resetTime < now {
          records := records - {key};
        }
        pending := pending - {key};
      }
    }

    /** checkRateLimit(ip) at clock reading `now`. */
    method Check(ip: string, now: int) returns (d: Decision)
      requires Valid()
      modifies this
      ensures Valid()
      ensures (d, records) == Decide(policy, old(records), ip, now)
      ensures clock == Max(old(clock), now)
      ensures old(clock) <= now ==> 0 <= d.resetInSeconds <= CeilDiv1000(policy.windowMs)
    {
      ghost var m0, c0 := records, clock;
      DecidePreservesWellFormed(policy, m0, c0, ip, now);
      if c0 <= now {
        ResetInSecondsBounded(policy, m0, c0, ip, now);
      }

      var found := ip in records;
      var record := if found then records[ip] else Record(0, 0);
      if |records| > CleanupThreshold {
        RemoveExpired(now);
      }
      ghost var swept := records;
      assert swept == if |m0| > CleanupThreshold then Sweep(m0, now) else m0;

      if !found || record.resetTime < now {
        records := records[ip := Record(1, now + policy.windowMs)];
        d := Decision(true, policy.limit - 1, CeilDiv1000(policy.windowMs));
      } else if record.count >= policy.limit {
        d := Decision(false, 0, CeilDiv1000(record.resetTime - now));
      } else {
        var updated := Record(record.count + 1, record.resetTime);
        records := records[ip := updated];
        d := Decision(true, policy.limit - updated.count, CeilDiv1000(updated.resetTime - now));
      }
      clock := Max(c0, now);
    }
  }
}
