/** The receive poll loop of network/nic.c, proved to be a run of the NicInterrupt system. */
module NicPoll {
  import opened NicInterrupt

  /** The state after an undisturbed poll that delivered `n` packets. */
  function AfterPoll(s: Nic, budget: nat, n: nat, noMemory: bool): Nic
    requires |s.delivered| + n <= |s.arrivals|
  {
    var t := s.(delivered := s.arrivals[..|s.delivered| + n], polls := s.polls + [PollResult(budget, n, n < budget)]);
    if n < budget
    then t.(napi := if s.missed then Scheduled else Idle, missed := false, starved := noMemory)
    else t.(napi := Scheduled)
  }

  /** The poll stops for one of the loop's three reasons. */
  predicate StopsAt(s: Nic, budget: nat, n: nat, noMemory: bool) {
    && n <= budget && |s.delivered| + n <= |s.arrivals|
    && (noMemory ==> n < budget && |s.delivered| + n < |s.arrivals|)
    && (n < budget && !noMemory ==> |s.delivered| + n == |s.arrivals|)
  }

  lemma {:induction false} Deliveries(s: Nic, n: nat) returns (run: seq<Event>)
    requires s.napi.Polling? && s.delivered <= s.arrivals
    requires |s.delivered| + n <= |s.arrivals| && s.napi.done + n <= s.napi.budget
    ensures Valid(s, run)
    ensures Exec(s, run) ==
            s.(delivered := s.arrivals[..|s.delivered| + n], napi := Polling(s.napi.budget, s.napi.done + n))
    decreases n
  {
    run := [];
    if n > 0 {
      var t := Next(s, PollDeliver);
      assert t.delivered == s.arrivals[..|s.delivered| + 1];
      var rest := Deliveries(t, n - 1);
      run := [PollDeliver] + rest;
      assert run[1..] == rest;
    }
  }

  lemma FinishPoll(t: Nic, noMemory: bool) returns (run: seq<Event>)
    requires t.napi.Polling? && t.napi.done <= t.napi.budget
    requires noMemory ==> t.napi.done < t.napi.budget && Waiting(t)
    requires t.napi.done < t.napi.budget && !noMemory ==> !Waiting(t)
    ensures Valid(t, run)
    ensures Exec(t, run) ==
            t.(
              polls := t.polls + [PollResult(t.napi.budget, t.napi.done, t.napi.done < t.napi.budget)],
              napi := if t.napi.done < t.napi.budget && !t.missed then Idle else Scheduled,
              missed := t.napi.done >= t.napi.budget && t.missed,
              starved := if t.napi.done < t.napi.budget then noMemory else t.starved)
  {
    if t.napi.done < t.napi.budget {
      var stop := if noMemory then PollNoMemory else PollDrained;
      var u := Next(t, stop);
      run := [stop, PollComplete];
      assert run[1..] == [PollComplete] && [PollComplete][1..] == [];
      assert Valid(u, [PollComplete]) && Exec(u, [PollComplete]) == Next(u, PollComplete);
    } else {
      run := [PollBudgetSpent];
      assert run[1..] == [];
    }
  }

  /** Every undisturbed poll is a run of the transition system, so what holds of all runs holds
      of it. */
  lemma PollIsARun(s: Nic, budget: nat, n: nat, noMemory: bool) returns (run: seq<Event>)
    requires s.napi.Scheduled? && s.delivered <= s.arrivals && StopsAt(s, budget, n, noMemory)
    ensures Valid(s, run) && Exec(s, run) == AfterPoll(s, budget, n, noMemory)
  {
    var t := Next(s, PollStart(budget));
    var deliver := Deliveries(t, n);
    var finish := FinishPoll(Exec(t, deliver), noMemory);
    ExecConcat(t, deliver, finish);
    run := [PollStart(budget)] + (deliver + finish);
    assert run[1..] == deliver + finish;
  }

  class Receiver {
    var nic: Nic

    /** The delivery loop of mynic_poll. `alloc(k)` is the outcome of the k-th skb allocation. */
    method DeliverLoop(budget: nat, alloc: nat -> bool) returns (rxDone: nat)
      requires nic.delivered <= nic.arrivals
      modifies this
      ensures StopsAt(old(nic), budget, rxDone, rxDone < budget && Waiting(nic))
      ensures nic == old(nic).(delivered := old(nic).arrivals[..|old(nic).delivered| + rxDone])
      ensures forall k :: 0 <= k < rxDone ==> alloc(k)
      ensures rxDone < budget && Waiting(nic) ==> !alloc(rxDone)
    {
      rxDone := 0;
      while rxDone < budget && |nic.delivered| < |nic.arrivals|
        invariant 0 <= rxDone <= budget
        invariant |old(nic).delivered| + rxDone <= |nic.arrivals|
        invariant nic == old(nic).(delivered := nic.arrivals[..|old(nic).delivered| + rxDone])
        invariant forall k :: 0 <= k < rxDone ==> alloc(k)
      {
        if !alloc(rxDone) {
          break;
        }
        nic := nic.(delivered := nic.delivered + [nic.arrivals[|nic.delivered|]]);
        rxDone := rxDone + 1;
      }
    }

    /** mynic_poll: the loop, then completion if the budget was not used up. */
    method Poll(budget: nat, alloc: nat -> bool) returns (rxDone: nat)
      requires nic.napi.Scheduled? && nic.delivered <= nic.arrivals
      modifies this
      ensures StopsAt(old(nic), budget, rxDone, rxDone < budget && Waiting(nic))
      ensures nic == AfterPoll(old(nic), budget, rxDone, rxDone < budget && Waiting(nic))
      ensures forall k :: 0 <= k < rxDone ==> alloc(k)
      ensures rxDone < budget && Waiting(nic) ==> !alloc(rxDone)
    {
      rxDone := DeliverLoop(budget, alloc);
      nic := nic.(polls := nic.polls + [PollResult(budget, rxDone, rxDone < budget)]);
      if rxDone < budget {
        nic := nic.(napi := if nic.missed then Scheduled else Idle,
                    missed := false,
                    starved := |nic.delivered| < |nic.arrivals|);
      }
    }
  }
}
