/** `useRateLimit`: the client's ten-second posting cooldown. The hook's
    state (`cooldown`, `lastPostTime`) and the `last_post_time` entry of
    local storage are the fields of one object; the mount effect, the
    one-second interval and `startCooldown` are its methods, with the clock
    as a parameter. */
module Cooldown {
  import opened Wrappers
  import opened Addresses
  import opened NumberText

  const CooldownSeconds := 10

  /** The cooldown and post time the mount effect restores from the stored
      text at `now`, if it restores anything: the text must be non-empty,
      parse to a time, and lie fewer than ten whole seconds before `now`. */
  function Restored(stored: Option<string>, now: int): (r: Option<(int, int)>)
    ensures r.Some? ==> r.value.0 >= 1
    ensures r.Some? ==> Truthy(stored) && ParseInt(stored.value) == Int(r.value.1)
    ensures r.Some? ==> r.value.0 == CooldownSeconds - (now - r.value.1) / 1000
  {
    if !Truthy(stored) then None
    else
      match ParseInt(stored.value)
      case NaN => None
      case Int(time) =>
        var elapsed := (now - time) / 1000;
        if elapsed < CooldownSeconds then Some((CooldownSeconds - elapsed, time)) else None
  }

  /** One interval tick, which runs only while the cooldown is positive. */
  function Tick(cooldown: int): (c: int)
    ensures cooldown > 0 ==> c == cooldown - 1
    ensures cooldown <= 0 ==> c == cooldown
  {
    if cooldown <= 0 then cooldown
    else if cooldown - 1 < 0 then 0 else cooldown - 1
  }

  /** `n` ticks. */
  function Ticks(cooldown: int, n: nat): int {
    if n == 0 then cooldown else Ticks(Tick(cooldown), n - 1)
  }

  class PostCooldown {
    var cooldown: int
    var lastPostTime: Option<int>
    /** `localStorage.getItem('last_post_time')` */
    var storage: Option<string>

    /** The cooldown never goes negative. */
    predicate Valid()
      reads this
    {
      cooldown >= 0
    }

    predicate CanPost()
      reads this
    {
      cooldown == 0
    }

    constructor (stored: Option<string>)
      ensures Valid() && cooldown == 0 && lastPostTime.None? && storage == stored
    {
      cooldown := 0;
      lastPostTime := None;
      storage := stored;
    }

    /** The mount effect at `now`. */
    method Restore(now: int)
      requires Valid()
      modifies this
      ensures Valid() && storage == old(storage)
      ensures Restored(storage, now).Some? ==>
                cooldown == Restored(storage, now).value.0 && lastPostTime == Some(Restored(storage, now).value.1)
      ensures Restored(storage, now).None? ==> cooldown == old(cooldown) && lastPostTime == old(lastPostTime)
    {
      var r := Restored(storage, now);
      if r.Some? {
        cooldown := r.value.0;
        lastPostTime := Some(r.value.1);
      }
    }

    /** One firing of the interval, which exists only while the cooldown is
      positive. */
    method TickOnce()
      requires Valid()
      modifies this
      ensures Valid() && cooldown == Tick(old(cooldown))
      ensures lastPostTime == old(lastPostTime) && storage == old(storage)
    {
      if cooldown <= 0 {
        return;
      }
      cooldown := if cooldown - 1 < 0 then 0 else cooldown - 1;
    }

    /** `startCooldown()` at `now`. */
    method StartCooldown(now: nat)
      modifies this
      ensures Valid() && cooldown == CooldownSeconds && !CanPost()
      ensures lastPostTime == Some(now) && storage == Some(NumberToString(now))
    {
      storage := Some(NumberToString(now));
      lastPostTime := Some(now);
      cooldown := CooldownSeconds;
    }
  }

  // ---------------------------------------------------------------------
  // Properties

  /** Posting is possible again after exactly as many ticks as the cooldown
      shows, and not before. */
  lemma {:induction false} TicksToZero(cooldown: nat, n: nat)
    ensures n <= cooldown ==> Ticks(cooldown, n) == cooldown - n
    ensures n >= cooldown ==> Ticks(cooldown, n) == 0
    decreases n
  {
    if n > 0 {
      TicksToZero(Tick(cooldown) as nat, n - 1);
    }
  }

  /** A reload `d` milliseconds after posting at `t` restores the remaining
      whole seconds of the cooldown while fewer than ten seconds have passed,
      and nothing afterwards. */
  lemma RestoreAfterPosting(t: nat, d: nat)
    ensures d < 10000 ==> Restored(Some(NumberToString(t)), t + d) == Some((CooldownSeconds - d / 1000, t))
    ensures d < 10000 ==> 1 <= CooldownSeconds - d / 1000 <= CooldownSeconds
    ensures d >= 10000 ==> Restored(Some(NumberToString(t)), t + d).None?
  {
    ParseNumberToString(t);
    assert (t + d - t) / 1000 == d / 1000;
  }

  /** A stored time in the future (a changed clock or an edited entry) is
      not rejected: it gives a cooldown longer than ten seconds. */
  lemma FutureStampLengthensCooldown(t: nat, now: int)
    requires now <= t - 1000
    ensures Restored(Some(NumberToString(t)), now).Some?
    ensures Restored(Some(NumberToString(t)), now).value.0 > CooldownSeconds
  {
    ParseNumberToString(t);
  }

  /** Text that does not start with a number restores nothing. */
  lemma GarbageRestoresNothing(stored: string, now: int)
    requires ParseInt(stored) == NaN
    ensures Restored(Some(stored), now).None?
  {
  }
}
