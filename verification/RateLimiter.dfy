/** The limiter as code: AllowIP for one caller, and a cleanup pass over the whole map. */
module RateLimiterCode {
  import opened LimiterModel
  import opened LimiterTheorems

  class RateLimiter {
    var ipLimiters: map<string, Entry>

    constructor ()
      ensures ipLimiters == map[]
    {
      ipLimiters := map[];
    }

    /** rate.Limiter.Allow on the bucket of an entry. */
    method Allow(ip: string, now: int) returns (allowed: bool)
      requires ip in ipLimiters
      modifies this
      ensures allowed == HasToken(old(ipLimiters[ip].bucket), now)
      ensures ipLimiters == old(ipLimiters)[ip :=
                old(ipLimiters[ip]).(bucket := AfterAllow(old(ipLimiters[ip].bucket), now))]
    {
      var b := ipLimiters[ip].bucket;
      var tokens := b.tokens + (now - b.last);
      if tokens > BURST {
        tokens := BURST;
      }
      allowed := tokens >= TOKEN;
      if allowed {
        tokens := tokens - TOKEN;
      }
      ipLimiters := ipLimiters[ip := ipLimiters[ip].(bucket := Bucket(tokens, now))];
    }

    /** AllowIP of utils/ratelimit/ratelimit.go; `seen` and `now` are its clock readings. An
        unknown IP starts with a full bucket, and no other IP is affected. */
    method AllowIP(ip: string, seen: int, now: int) returns (allowed: bool)
      requires seen <= now
      modifies this
      ensures ipLimiters.Keys == old(ipLimiters.Keys) + {ip}
      ensures ip !in old(ipLimiters) ==> allowed && ipLimiters[ip] == Entry(ip, Bucket(BURST - TOKEN, now), seen)
      ensures ip in old(ipLimiters) ==>
                && allowed == HasToken(old(ipLimiters[ip].bucket), now)
                && ipLimiters[ip] == Entry(old(ipLimiters[ip].ip), AfterAllow(old(ipLimiters[ip].bucket), now), seen)
      ensures forall other :: other in old(ipLimiters) && other != ip ==> ipLimiters[other] == old(ipLimiters[other])
    {
      if ip !in ipLimiters {
        ipLimiters := ipLimiters[ip := Entry(ip, NewBucket(seen), seen)];
      }
      ipLimiters := ipLimiters[ip := ipLimiters[ip].(lastSeen := seen)];
      allowed := Allow(ip, now);
    }

    /** One round of cleanupLoop: exactly the entries idle for more than ten minutes go, and
        if the bucket was used at most MAX_SLACK after lastSeen was written, every
        bucket that goes is full. */
    method CleanUp(now: int) returns (expired: nat)
      modifies this
      ensures ipLimiters == map ip |
                ip in old(ipLimiters) && now - old(ipLimiters[ip].lastSeen) <= IDLE_LIMIT :: old(ipLimiters[ip])
      ensures expired == |old(ipLimiters)| - |ipLimiters|
      ensures forall ip :: ip in old(ipLimiters) && ip !in ipLimiters
                           && 0 <= old(ipLimiters[ip].bucket.tokens)
                           && old(ipLimiters[ip].bucket.last) <= old(ipLimiters[ip].lastSeen) + MAX_SLACK
                           ==> IsFull(old(ipLimiters[ip].bucket), now)
    {
      var keys := ipLimiters.Keys;
      expired := 0;
      ghost var before := ipLimiters;
      while keys != {}
        invariant keys <= before.Keys
        invariant ipLimiters == map ip |
                    ip in before && (ip in keys || now - before[ip].lastSeen <= IDLE_LIMIT) :: before[ip]
        invariant expired == |before| - |ipLimiters|
        decreases keys
      {
        var ip :| ip in keys;
        keys := keys - {ip};
        if now - ipLimiters[ip].lastSeen > IDLE_LIMIT {
          assert |ipLimiters.Keys - {ip}| == |ipLimiters.Keys| - 1;
          assert (ipLimiters - {ip}).Keys == ipLimiters.Keys - {ip};
          ipLimiters := ipLimiters - {ip};
          expired := expired + 1;
        }
      }
    }
  }
}
