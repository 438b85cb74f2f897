/**
 The cooldown tracker: how long a provider is left alone after it failed.
 Times and durations are milliseconds; the zero time is `None`.
 */
module Cooldown {
  import opened Basics

  datatype Reason = Auth | RateLimit | Billing | Timeout | Format | Overloaded | Unknown

  datatype Entry = Entry(
    errorCount: nat,
    failureCounts: map<Reason, nat>,
    cooldownEnd: Option<int>,
    disabledUntil: Option<int>,
    disabledReason: Option<Reason>,
    lastFailure: Option<int>)

  const NEW_ENTRY := Entry(0, map[], None, None, None, None)
  const MINUTE := 60_000
  const HOUR := 60 * MINUTE
  const FAILURE_WINDOW := 24 * HOUR

  // ----- the two back-off formulas

  function Pow(base: nat, exp: nat): nat {
    if exp == 0 then 1 else base * Pow(base, exp - 1)
  }

  function StandardCooldown(errorCount: int): int {
    Min(HOUR, MINUTE * Pow(5, Min(Max(1, errorCount) - 1, 3)))
  }

  function BillingCooldown(billingErrorCount: int): int {
    Min(24 * HOUR, 5 * HOUR * Pow(2, Min(Max(1, billingErrorCount) - 1, 10)))
  }

  /** 1, 5 and 25 minutes, then an hour each time. */
  lemma StandardCooldowns(n: int)
    ensures StandardCooldown(n) ==
      if n <= 1 then 60_000 else if n == 2 then 300_000 else if n == 3 then 1_500_000 else 3_600_000
  {
    assert Pow(5, 1) == 5;
    assert Pow(5, 2) == 25;
    assert Pow(5, 3) == 125;
  }

  lemma {:induction false} PowGrows(base: nat, low: nat, high: nat)
    requires base >= 1 && low <= high
    ensures 1 <= Pow(base, low) <= Pow(base, high)
  {
    if low == high {
      if low > 0 {
        PowGrows(base, low - 1, low - 1);
      }
    } else {
      PowGrows(base, low, high - 1);
      assert base * Pow(base, high - 1) >= Pow(base, high - 1);
    }
  }

  /** 5, 10 and 20 hours, then a day each time. */
  lemma BillingCooldowns(n: int)
    ensures BillingCooldown(n) ==
      if n <= 1 then 18_000_000 else if n == 2 then 36_000_000 else if n == 3 then 72_000_000 else 86_400_000
  {
    assert Pow(2, 1) == 2;
    assert Pow(2, 2) == 4;
    assert Pow(2, 3) == 8;
    if n >= 4 {
      PowGrows(2, 3, Min(n - 1, 10));
    }
  }

  // ----- entries

  function Count(entry: Entry, reason: Reason): nat {
    if reason in entry.failureCounts then entry.failureCounts[reason] else 0
  }

  predicate WindowPassed(entry: Entry, now: int) {
    entry.lastFailure.Some? && now - entry.lastFailure.value > FAILURE_WINDOW
  }

  function Failed(entry: Entry, reason: Reason, now: int): Entry {
    var kept := if WindowPassed(entry, now) then entry.(errorCount := 0, failureCounts := map[]) else entry;
    var counted := kept.(
      errorCount := kept.errorCount + 1,
      failureCounts := kept.failureCounts[reason := Count(kept, reason) + 1],
      lastFailure := Some(now));
    if reason == Billing then
      counted.(disabledUntil := Some(now + BillingCooldown(Count(counted, Billing))), disabledReason := Some(Billing))
    else
      counted.(cooldownEnd := Some(now + StandardCooldown(counted.errorCount)))
  }

  function Succeeded(entry: Entry): Entry {
    Entry(0, map[], None, None, None, entry.lastFailure)
  }

  predicate Blocks(deadline: Option<int>, now: int) { deadline.Some? && now < deadline.value }

  predicate Available(entry: Entry, now: int) {
    !Blocks(entry.disabledUntil, now) && !Blocks(entry.cooldownEnd, now)
  }

  function Left(deadline: Option<int>, now: int): int { if Blocks(deadline, now) then deadline.value - now else 0 }

  function Remaining(entry: Entry, now: int): int { Max(Left(entry.disabledUntil, now), Left(entry.cooldownEnd, now)) }

  /** The remaining cooldown is the exact wait. */
  lemma RemainingIsExact(entry: Entry, now: int, wait: nat)
    ensures Available(entry, now + wait) <==> wait >= Remaining(entry, now)
  {
    hide StandardCooldown, BillingCooldown;
  }

  // ----- the tracker

  function Lookup(entries: map<string, Entry>, provider: string): Entry {
    if provider in entries then entries[provider] else NEW_ENTRY
  }

  class CooldownTracker {
    var entries: map<string, Entry>

    constructor ()
      ensures entries == map[]
    {
      entries := map[];
    }

    method MarkFailure(provider: string, reason: Reason, now: int)
      modifies this
      ensures entries == old(entries)[provider := Failed(Lookup(old(entries), provider), reason, now)]
    {
      hide StandardCooldown, BillingCooldown;
      if provider !in entries {
        entries := entries[provider := NEW_ENTRY];
      }
      var entry := entries[provider];
      if entry.lastFailure.Some? && now - entry.lastFailure.value > FAILURE_WINDOW {
        entry := entry.(errorCount := 0, failureCounts := map[]);
      }
      entry := entry.(errorCount := entry.errorCount + 1);
      entry := entry.(failureCounts := entry.failureCounts[reason := Count(entry, reason) + 1]);
      entry := entry.(lastFailure := Some(now));
      if reason == Billing {
        var billingCount := Count(entry, Billing);
        entry := entry.(disabledUntil := Some(now + BillingCooldown(billingCount)));
        entry := entry.(disabledReason := Some(Billing));
      } else {
        entry := entry.(cooldownEnd := Some(now + StandardCooldown(entry.errorCount)));
      }
      entries := entries[provider := entry];
    }

    method MarkSuccess(provider: string)
      modifies this
      ensures entries ==
        if provider in old(entries) then old(entries)[provider := Succeeded(old(entries)[provider])] else old(entries)
    {
      if provider !in entries {
        return;
      }
      var entry := entries[provider];
      entry := entry.(errorCount := 0, failureCounts := map[]);
      entry := entry.(cooldownEnd := None, disabledUntil := None, disabledReason := None);
      entries := entries[provider := entry];
    }

    method IsAvailable(provider: string, now: int) returns (available: bool)
      ensures available == Available(Lookup(entries, provider), now)
    {
      if provider !in entries {
        return true;
      }
      var entry := entries[provider];
      if entry.disabledUntil.Some? && now < entry.disabledUntil.value {
        return false;
      }
      if entry.cooldownEnd.Some? && now < entry.cooldownEnd.value {
        return false;
      }
      return true;
    }

    method CooldownRemaining(provider: string, now: int) returns (remaining: int)
      ensures remaining == Remaining(Lookup(entries, provider), now)
    {
      remaining := 0;
      if provider !in entries {
        return;
      }
      var entry := entries[provider];
      if entry.disabledUntil.Some? && now < entry.disabledUntil.value {
        remaining := Max(remaining, entry.disabledUntil.value - now);
      }
      if entry.cooldownEnd.Some? && now < entry.cooldownEnd.value {
        remaining := Max(remaining, entry.cooldownEnd.value - now);
      }
    }
  }
}
