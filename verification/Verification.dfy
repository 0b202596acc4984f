/** The table of verification codes as an object. */
module Verification {
  import opened VerificationModel
  import opened VerificationTheorems

  class VerificationStore {
    var entries: Store
    const minutes: int

    constructor (minutes: int)
      ensures entries == map[] && this.minutes == minutes
    {
      entries, this.minutes := map[], minutes;
    }

    /** Returns whether the registration was taken. */
    method RegisterCode(at: string, code: string, now: int) returns (ok: bool)
      modifies this
      ensures ok <==> code != "" && minutes > 0
      ensures entries == RegisterStep(old(entries), at, code, now, minutes)
    {
      if code == "" || minutes <= 0 {
        return false;
      }
      entries := entries[at := Value(code, now)];
      if |entries| > MAX_SIZE {
        RemoveExpiredPairs(now);
      }
      return true;
    }

    method VerifyCode(at: string, code: string, now: int) returns (ok: bool)
      modifies this
      ensures ok <==> Accepts(old(entries), at, code, now, minutes)
      ensures entries == VerifyStep(old(entries), at, code, now, minutes)
      ensures minutes > 0 ==>
                (ok <==> code != "" && at in old(entries) && code == old(entries)[at].code
                         && now - old(entries)[at].time < minutes * 60 * 1_000_000_000)
      ensures minutes > 0 && code != "" && at in old(entries) ==>
                (at in entries <==> code != old(entries)[at].code && now - old(entries)[at].time < minutes * 60 * 1_000_000_000)
      ensures forall k :: k != at || code == "" ==> (k in entries <==> k in old(entries))
    {
      if minutes > 0 && at in entries {
        ExpiredExactly(entries[at], now, minutes);
      }
      if code == "" {
        return false;
      }
      if at !in entries || Expired(entries[at], now, minutes) {
        entries := entries - {at};
        return false;
      }
      if code != entries[at].code {
        return false;
      }
      entries := entries - {at};
      return true;
    }

    method RemoveExpiredPairs(now: int)
      modifies this
      ensures entries == Purged(old(entries), now, minutes)
      ensures minutes > 0 ==>
                forall k :: k in entries <==> k in old(entries) && now - old(entries)[k].time < minutes * 60 * 1_000_000_000
    {
      ghost var was := entries;
      var rest := entries.Keys;
      while rest != {}
        invariant rest <= was.Keys
        invariant entries == map k | k in was && (k in rest || !Expired(was[k], now, minutes)) :: was[k]
      {
        var k :| k in rest;
        rest := rest - {k};
        if Expired(entries[k], now, minutes) {
          entries := entries - {k};
        }
      }
      if minutes > 0 {
        forall k ensures k in entries <==> k in was && now - was[k].time < minutes * 60 * 1_000_000_000 {
          PurgeExactly(was, now, minutes, k);
        }
      }
    }
  }
}
