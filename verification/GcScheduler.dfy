/** The scheduler object itself: fields updated poll by poll, each method equal to its transition. */
module GcScheduler {
  import opened Basics
  import opened GcPolicy

  /** `AdaptivePhase`: its wait and due time change in place. */
  class AdaptivePhase {
    const base: nat
    const maximum: nat
    var wait: nat
    var nextDue: nat

    ghost function View(): Phase
      reads this
    {
      Phase(base, maximum, wait, nextDue)
    }

    ghost predicate Valid()
      reads this
    {
      base <= maximum && wait <= maximum
    }

    constructor (now: nat, base: nat, maximum: nat, horizon: nat)
      requires base <= maximum
      ensures Valid() && View() == NewPhase(now, base, maximum, horizon)
      ensures wait == base && (now + base <= horizon ==> nextDue == now + base)
    {
      this.base, this.maximum, wait := base, maximum, base;
      nextDue := OrElse(Later(now, base, horizon), now);
    }

    /**
      The wait never passes the maximum, and falls only to the base and only when the
      run paid off; the phase is due within one wait, and exactly one wait away unless
      the clock ends first.
     */
    method Record(now: nat, saved: nat, minimum: nat, forced: bool, horizon: nat)
      requires Valid()
      modifies this
      ensures Valid() && View() == Recorded(old(View()), now, saved, minimum, forced, horizon)
      ensures wait < old(wait) ==> wait == base && saved >= minimum
      ensures wait > old(wait) ==> (saved >= minimum && old(wait) < base) || (saved < minimum && !forced)
      ensures now <= nextDue <= now + wait && (now + wait <= horizon ==> nextDue == now + wait)
    {
      if saved >= minimum {
        wait := base;
      } else if !forced {
        wait := Min(2 * wait, maximum);
      }
      nextDue := OrElse(Later(now, wait, horizon), now);
    }
  }

  class OnlineGcScheduler {
    const policy: Policy
    const metadata: AdaptivePhase
    const data: AdaptivePhase
    var operations: nat
    var deletes: nat
    var activityAt: nat
    var usage: Usage
    var urgentAt: nat
    var windowDue: Option<nat>
    var latched: bool
    /** The latest time any call was given. */
    ghost var clock: nat

    /** The waits are in range, and no phase is due more than one wait after the latest time seen. */
    ghost predicate Valid()
      reads this, metadata, data
    {
      && metadata != data && metadata.Valid() && data.Valid()
      && Fits(View(), clock) && urgentAt <= clock
    }

    ghost function View(): Scheduler
      reads this, metadata, data
    {
      Scheduler(policy, operations, deletes, activityAt, usage, metadata.View(), data.View(),
                urgentAt, windowDue, latched)
    }

    constructor (now: nat, operations: nat, usage: Usage, policy: Policy)
      requires ValidPolicy(policy) && now <= policy.horizon
      ensures Valid() && fresh(metadata) && fresh(data) && clock == now
      ensures View() == NewScheduler(now, operations, usage, policy)
      ensures now + policy.dataBase <= policy.horizon ==> data.nextDue == now + policy.dataBase
      ensures now + policy.metadataBase <= policy.horizon ==> metadata.nextDue == now + policy.metadataBase
      ensures urgentAt == activityAt == now && !latched && windowDue == None
    {
      this.policy := policy;
      metadata := new AdaptivePhase(now, policy.metadataBase, policy.metadataMax, policy.horizon);
      data := new AdaptivePhase(now, policy.dataBase, policy.dataMax, policy.horizon);
      this.operations, deletes, activityAt, this.usage := operations, 0, now, usage;
      urgentAt, windowDue, latched := now, None, false;
      clock := now;
    }

    /** A changed delete counter clamps the DATA phase back to the delete interval. */
    method NoteDeletes(now: nat, deletes: nat)
      modifies this`deletes, data
      ensures this.deletes == deletes
      ensures data.View() == if deletes > old(this.deletes)
                             then Clamped(old(data.View()), now, policy.dataDelete, policy.horizon)
                             else old(data.View())
      ensures data.wait <= old(data.wait) && data.nextDue <= old(data.nextDue)
    {
      if deletes > this.deletes && data.wait > policy.dataDelete {
        data.wait := policy.dataDelete;
        var due := OrElse(Later(now, data.wait, policy.horizon), data.nextDue);
        if due < data.nextDue {
          data.nextDue := due;
        }
      }
      this.deletes := deletes;
    }

    /**
      The notes a poll takes. New deletes bring DATA due within the delete interval;
      the latch closes at the high mark, opens at the low mark, and keeps between them.
     */
    method Observe(now: nat, operations: nat, deletes: nat, usage: Usage)
      requires Valid() && now <= policy.horizon
      modifies this`operations, this`deletes, this`activityAt, this`usage, this`latched, this`clock, data
      ensures Valid() && clock == Max(old(clock), now)
      ensures View() == Observed(old(View()), now, operations, deletes, usage)
      ensures this.operations == operations && this.deletes == deletes && this.usage == usage
      ensures deletes > old(this.deletes) ==>
                && data.wait == Min(old(data.wait), policy.dataDelete)
                && data.nextDue <= clock + policy.dataDelete
      ensures data.wait <= old(data.wait) && data.nextDue <= old(data.nextDue)
      ensures data.nextDue < old(data.nextDue) ==> data.nextDue == now + policy.dataDelete
      ensures latched <==> usage.used * 10_000 >= usage.capacity * policy.high
                           || (old(latched) && usage.used * 10_000 > usage.capacity * policy.low)
      ensures activityAt == if operations != old(this.operations) then now else old(activityAt)
      ensures deletes <= old(this.deletes) ==> data.View() == old(data.View())
    {
      assert AtLeast(usage, policy.high) <==> usage.used * 10_000 >= usage.capacity * policy.high;
      assert AtMost(usage, policy.low) <==> usage.used * 10_000 <= usage.capacity * policy.low;
      hide Clamped, Fits, AtLeast, AtMost;
      ObservedFits(View(), clock, now, operations, deletes, usage);
      this.usage := usage;
      if operations != this.operations {
        this.operations := operations;
        activityAt := now;
      }
      NoteDeletes(now, deletes);
      if AtLeast(usage, policy.high) {
        latched := true;
      } else if AtMost(usage, policy.low) {
        latched := false;
      }
      clock := Max(clock, now);
    }

    /**
      `poll`: at most one quantum, pressure first. An urgent one comes a full urgent
      interval after whatever last restarted it; a DATA start under a daily window is
      inside the window and past the window's own interval. Whatever is due is admitted:
      under pressure everything, otherwise exactly the due phases, as idle work exactly
      after a full idle interval without activity.
     */
    method Poll(now: nat, operations: nat, deletes: nat, usage: Usage, minute: nat) returns (q: Option<Quantum>)
      requires Valid() && now <= policy.horizon
      modifies this, data
      ensures Valid() && clock == Max(old(clock), now)
      ensures View() == Polled(old(View()), now, operations, deletes, usage, minute)
      ensures q == Admitted(Observed(old(View()), now, operations, deletes, usage), now, minute)
      ensures RightQuantum(Observed(old(View()), now, operations, deletes, usage), now, minute, q)
      ensures q.Some? && q.value.mode.Urgent? ==>
                latched && now >= old(urgentAt) + policy.urgentInterval && urgentAt == now
      ensures q.Some? && !q.value.mode.Urgent? ==>
                !latched && (q.value.metadata || q.value.data) && urgentAt == old(urgentAt)
      ensures q.Some? && !q.value.mode.Urgent? && q.value.data && policy.window.Some? ==>
                Contains(policy.window.value.0, minute) && now >= OrElse(old(windowDue), now)
      ensures policy.window.Some? ==>
                var starts, gap := q.Some? && !q.value.mode.Urgent? && q.value.data, policy.window.value.1;
                && (!starts ==> windowDue == old(windowDue))
                && (starts && now + gap <= policy.horizon ==> windowDue == Some(now + gap))
      ensures deletes > old(this.deletes) ==>
                data.wait == Min(old(data.wait), policy.dataDelete)
                && data.nextDue <= Max(old(clock), now) + policy.dataDelete
      ensures this.usage == usage && this.operations == operations && this.deletes == deletes
    {
      ghost var before := View();
      AdmittedIsRight(Observed(before, now, operations, deletes, usage), now, minute);
      hide Observed, Fits, RightQuantum;
      PolledFits(before, clock, now, operations, deletes, usage, minute);
      Observe(now, operations, deletes, usage);
      var quiet := now >= activityAt && now - activityAt >= policy.idleAfter;
      var window := OpenWindow(policy, minute);
      if latched {
        if now < urgentAt || now - urgentAt < policy.urgentInterval {
          return None;
        }
        urgentAt := now;
        return Some(Quantum(Urgent, true, true));
      }
      var dataDue := now >= data.nextDue && (window.Some? || policy.window.None?);
      if window.Some? {
        var capped := OrElse(windowDue, now);
        dataDue := dataDue && now >= capped;
      }
      var metadataDue := now >= metadata.nextDue;
      if !metadataDue && !dataDue {
        return None;
      }
      if dataDue && window.Some? {
        windowDue := Some(OrElse(Later(now, window.value, policy.horizon), now));
      }
      return Some(Quantum(if quiet then Idle else Background, metadataDue, dataDue));
    }

    /** The metadata phase is next due within its wait; DATA is untouched. */
    method RecordMetadataRun(now: nat, saved: nat, forced: bool)
      requires Valid() && now <= policy.horizon
      modifies metadata, this`clock
      ensures Valid() && clock == Max(old(clock), now)
      ensures View() == MetadataRun(old(View()), now, saved, forced)
      ensures policy.metadataBase <= metadata.wait <= policy.metadataMax
      ensures now <= metadata.nextDue <= now + metadata.wait
      ensures metadata.wait == if saved >= policy.minimumSavings then policy.metadataBase
                               else if forced then old(metadata.wait)
                               else Min(2 * old(metadata.wait), policy.metadataMax)
    {
      MetadataRunFits(View(), clock, now, saved, forced);
      metadata.Record(now, saved, policy.minimumSavings, forced, policy.horizon);
      clock := Max(clock, now);
    }

    /**
      The DATA phase is next due within its wait; metadata is untouched. The wait returns
      to the base exactly by the share of used bytes the run freed.
     */
    method RecordDataRun(now: nat, freed: nat, forced: bool)
      requires Valid() && now <= policy.horizon
      modifies data, this`clock
      ensures Valid() && clock == Max(old(clock), now)
      ensures View() == DataRun(old(View()), now, freed, forced)
      ensures Min(policy.dataBase, policy.dataDelete) <= data.wait <= policy.dataMax
      ensures now <= data.nextDue <= now + data.wait
      ensures data.wait == if Min(freed * 10_000, U64_MAX) >= policy.minimumSavings * Max(usage.used, 1)
                           then policy.dataBase
                           else if forced then old(data.wait) else Min(2 * old(data.wait), policy.dataMax)
    {
      SavingsAreAShare(freed, usage, policy.minimumSavings);
      DataRunFits(View(), clock, now, freed, forced);
      data.Record(now, SavedPoints(freed, usage), policy.minimumSavings, forced, policy.horizon);
      clock := Max(clock, now);
    }

    /** No poll admits an urgent quantum before the urgent interval has passed again. */
    method RecordImmediateStart(now: nat)
      requires Valid() && now <= policy.horizon
      modifies this`urgentAt, this`clock
      ensures Valid() && clock == Max(old(clock), now)
      ensures View() == old(View()).(urgentAt := now)
      ensures forall later: nat, operations: nat, deletes: nat, usage: Usage, minute: nat ::
                AdmitsUrgent(View(), later, operations, deletes, usage, minute) ==> later >= now + policy.urgentInterval
    {
      urgentAt := now;
      clock := Max(clock, now);
    }
  }
}
