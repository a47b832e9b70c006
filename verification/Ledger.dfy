/** Acquiring and unwinding resources, in general. A log of acquire and release events is replayed
    on the books: the set of resources held, and whether every acquire so far was of something free
    and every release of something held. */
module Ledger {
  import opened Prelude

  datatype Event<R> = Acquire(r: R) | Release(r: R)

  datatype Books<R> = Books(held: set<R>, clean: bool)

  function Replay<R>(b: Books<R>, log: seq<Event<R>>): Books<R>
    decreases |log|
  {
    if log == [] then b else
    match log[0]
    case Acquire(r) => Replay(Books(b.held + {r}, b.clean && r !in b.held), log[1..])
    case Release(r) => Replay(Books(b.held - {r}, b.clean && r in b.held), log[1..])
  }

  function Acquires<R>(rs: seq<R>): (log: seq<Event<R>>) {
    seq(|rs|, i requires 0 <= i < |rs| => Acquire(rs[i]))
  }

  function Releases<R>(rs: seq<R>): (log: seq<Event<R>>) {
    seq(|rs|, i requires 0 <= i < |rs| => Release(rs[i]))
  }

  // ----- Probe functions: calls in order, and labels to fall through when one fails -----

  /** What the calls of a probe take; a call that takes nothing is None. */
  function Taken<R>(calls: seq<Option<R>>): seq<R>
    decreases |calls|
  {
    if calls == [] then [] else
    Taken(calls[..|calls| - 1]) +
    (if calls[|calls| - 1].Some? then [calls[|calls| - 1].value] else [])
  }

  /** The position of the first failing call, or the number of calls. */
  function FirstFailure(ok: seq<bool>): (n: nat)
    ensures n <= |ok| && (n < |ok| ==> !ok[n])
    ensures forall i :: 0 <= i < n ==> ok[i]
  {
    if ok == [] || !ok[0] then 0 else 1 + FirstFailure(ok[1..])
  }

  /** A probe whose call number `fail` fails gives back what was taken, in reverse order. A `fail`
      of |calls| or more stands for success. */
  function ProbeLog<R>(calls: seq<Option<R>>, fail: nat): seq<Event<R>> {
    if fail < |calls|
    then Acquires(Taken(calls[..fail])) + Releases(Reversed(Taken(calls[..fail])))
    else Acquires(Taken(calls))
  }

  lemma TakenSnoc<R>(calls: seq<Option<R>>, c: Option<R>)
    ensures Taken(calls + [c]) == Taken(calls) + (if c.Some? then [c.value] else [])
  {
    assert (calls + [c])[..|calls|] == calls;
  }

  lemma {:induction false} TakenPrefix<R>(calls: seq<Option<R>>, j: nat)
    requires j <= |calls|
    ensures Taken(calls[..j]) <= Taken(calls)
    decreases |calls| - j
  {
    if j == |calls| {
      assert calls[..j] == calls;
    } else {
      TakenPrefix(calls, j + 1);
      assert calls[..j + 1] == calls[..j] + [calls[j]];
      TakenSnoc(calls[..j], calls[j]);
    }
  }

  /** What the label of call `j` releases is the next entry of the reversed list. */
  lemma NextLabel<R>(calls: seq<Option<R>>, j: nat)
    requires j < |calls|
    ensures
      var all, below := Taken(calls), Taken(calls[..j]);
      var upTo := Taken(calls[..j + 1]);
      && |below| <= |upTo| <= |all|
      && Reversed(all)[..|all| - |below|] ==
         Reversed(all)[..|all| - |upTo|] + (if calls[j].Some? then [calls[j].value] else [])
  {
    TakenPrefix(calls, j + 1);
    assert calls[..j + 1] == calls[..j] + [calls[j]];
    TakenSnoc(calls[..j], calls[j]);
    var all, below := Taken(calls), Taken(calls[..j]);
    if calls[j].Some? {
      assert all[|below|] == calls[j].value;
      assert Reversed(all)[|all| - |below| - 1] == calls[j].value;
    }
  }

  /** Falls through the labels from the one before the failed call. */
  method FallThrough<R>(calls: seq<Option<R>>) returns (log: seq<Event<R>>)
    ensures log == Releases(Reversed(Taken(calls)))
    ensures |log| == |Taken(calls)|
    ensures forall i :: 0 <= i < |log| ==> log[i] == Release(Taken(calls)[|log| - 1 - i])
  {
    log := [];
    var j := |calls|;
    ghost var all := Taken(calls);
    assert calls[..j] == calls;
    while j > 0
      invariant 0 <= j <= |calls|
      invariant |Taken(calls[..j])| <= |all|
      invariant log == Releases(Reversed(all)[..|all| - |Taken(calls[..j])|])
    {
      j := j - 1;
      NextLabel(calls, j);
      if calls[j].Some? {
        log := log + [Release(calls[j].value)];
      }
    }
    assert calls[..0] == [];
    assert Reversed(all)[..|all|] == Reversed(all);
  }

  /** A probe function in general: take each call's resource until one fails, then fall through the
      labels of the calls before it. */
  method RunProbe<R>(calls: seq<Option<R>>, ok: seq<bool>) returns (failed: bool, log: seq<Event<R>>)
    requires |ok| == |calls|
    ensures failed <==> FirstFailure(ok) < |calls|
    ensures log == ProbeLog(calls, FirstFailure(ok))
  {
    var i := 0;
    log := [];
    while i < |calls| && ok[i]
      invariant 0 <= i <= |calls|
      invariant forall k :: 0 <= k < i ==> ok[k]
      invariant log == Acquires(Taken(calls[..i]))
    {
      assert calls[..i + 1] == calls[..i] + [calls[i]];
      TakenSnoc(calls[..i], calls[i]);
      if calls[i].Some? {
        log := log + [Acquire(calls[i].value)];
      }
      i := i + 1;
    }
    failed := i < |calls|;
    if failed {
      var unwind := FallThrough(calls[..i]);
      log := log + unwind;
    } else {
      assert calls[..i] == calls;
    }
  }

  // ----- What such logs do to the books -----

  /** Something is held after a log exactly when its last acquire was not followed by a release, or it
      was held before and never released. */
  lemma {:induction false} HeldIff<R>(b: Books<R>, log: seq<Event<R>>, x: R)
    ensures x in Replay(b, log).held <==>
            || (exists i :: 0 <= i < |log| && log[i] == Acquire(x) && Release(x) !in log[i + 1..])
            || (x in b.held && Release(x) !in log)
    decreases |log|
  {
    if log != [] {
      var rest := log[1..];
      var next := if log[0].Acquire? then Books(b.held + {log[0].r}, b.clean && log[0].r !in b.held)
                  else Books(b.held - {log[0].r}, b.clean && log[0].r in b.held);
      HeldIff(next, rest, x);
      assert Release(x) in log <==> log[0] == Release(x) || Release(x) in rest;
      assert forall i :: 0 <= i < |rest| ==> rest[i] == log[i + 1] && rest[i + 1..] == log[i + 1 + 1..];
      if i :| 0 <= i < |log| && log[i] == Acquire(x) && Release(x) !in log[i + 1..] {
        if i > 0 {
          assert rest[i - 1] == Acquire(x) && Release(x) !in rest[i..];
        }
      }
    }
  }

  /** The books stay clean exactly when every acquire was of something free at that moment and every
      release of something held. */
  lemma {:induction false} CleanIff<R>(b: Books<R>, log: seq<Event<R>>)
    ensures Replay(b, log).clean <==>
            b.clean && forall i :: 0 <= i < |log| ==> (log[i].Acquire? <==> log[i].r !in Replay(b, log[..i]).held)
    decreases |log|
  {
    if log != [] {
      var init, last := log[..|log| - 1], log[|log| - 1];
      CleanIff(b, init);
      assert log == init + [last];
      ReplayConcat(b, init, [last]);
      assert [last][1..] == [];
      assert forall i :: 0 <= i < |init| ==> init[..i] == log[..i] && init[i] == log[i];
      assert log[..|log| - 1] == init;
    }
  }

  lemma {:induction false} ReplayConcat<R>(b: Books<R>, x: seq<Event<R>>, y: seq<Event<R>>)
    ensures Replay(b, x + y) == Replay(Replay(b, x), y)
    decreases |x|
  {
    if x == [] {
      assert x + y == y;
    } else {
      assert (x + y)[1..] == x[1..] + y;
      match x[0]
      case Acquire(r) => ReplayConcat(Books(b.held + {r}, b.clean && r !in b.held), x[1..], y);
      case Release(r) => ReplayConcat(Books(b.held - {r}, b.clean && r in b.held), x[1..], y);
    }
  }

  lemma {:induction false} ReplayAcquires<R>(b: Books<R>, rs: seq<R>)
    requires NoDup(rs) && Elems(rs) !! b.held
    ensures Replay(b, Acquires(rs)) == Books(b.held + Elems(rs), b.clean)
    decreases |rs|
  {
    if rs == [] {
      assert b.held + Elems(rs) == b.held;
    } else {
      assert Acquires(rs)[1..] == Acquires(rs[1..]);
      assert Elems(rs) == {rs[0]} + Elems(rs[1..]);
      ReplayAcquires(Books(b.held + {rs[0]}, b.clean), rs[1..]);
      assert b.held + {rs[0]} + Elems(rs[1..]) == b.held + Elems(rs);
    }
  }

  /** Releasing each of a list once takes exactly those away, and is legal exactly when all were held. */
  lemma {:induction false} ReplayReleases<R>(b: Books<R>, rs: seq<R>)
    requires NoDup(rs)
    ensures Replay(b, Releases(rs)) == Books(b.held - Elems(rs), b.clean && Elems(rs) <= b.held)
    decreases |rs|
  {
    if rs == [] {
      assert b.held - Elems(rs) == b.held;
    } else {
      var next := Books(b.held - {rs[0]}, b.clean && rs[0] in b.held);
      assert Releases(rs)[1..] == Releases(rs[1..]);
      assert Elems(rs) == {rs[0]} + Elems(rs[1..]);
      ReplayReleases(next, rs[1..]);
      assert next.held - Elems(rs[1..]) == b.held - Elems(rs);
      assert rs[0] !in Elems(rs[1..]);
    }
  }

  /** What is held stays held unless the log releases it. */
  lemma {:induction false} ReplayKeeps<R>(b: Books<R>, log: seq<Event<R>>, x: R)
    requires x in b.held && Release(x) !in log
    ensures x in Replay(b, log).held
    decreases |log|
  {
    if log != [] {
      match log[0]
      case Acquire(r) => ReplayKeeps(Books(b.held + {r}, b.clean && r !in b.held), log[1..], x);
      case Release(r) =>
        assert log[0] == Release(r);
        ReplayKeeps(Books(b.held - {r}, b.clean && r in b.held), log[1..], x);
    }
  }

  lemma ReversedSame<R>(rs: seq<R>)
    requires NoDup(rs)
    ensures NoDup(Reversed(rs)) && Elems(Reversed(rs)) == Elems(rs)
  {
    forall x | x in rs
      ensures x in Reversed(rs)
    {
      var i :| 0 <= i < |rs| && rs[i] == x;
      assert Reversed(rs)[|rs| - 1 - i] == x;
    }
  }

  /** A remove that releases the same resources once, in any order, undoes a successful probe. */
  lemma RemoveUndoesProbe<R>(b: Books<R>, rs: seq<R>, ps: seq<R>)
    requires NoDup(rs) && NoDup(ps) && Elems(rs) == Elems(ps) && Elems(rs) !! b.held
    ensures Replay(b, Acquires(rs) + Releases(ps)) == b
  {
    ReplayAcquires(b, rs);
    ReplayReleases(Books(b.held + Elems(rs), b.clean), ps);
    ReplayConcat(b, Acquires(rs), Releases(ps));
    assert b.held + Elems(rs) - Elems(ps) == b.held;
  }

  lemma PrefixOf<R>(p: seq<R>, s: seq<R>)
    requires p <= s && NoDup(s)
    ensures NoDup(p) && Elems(p) <= Elems(s)
  {
    assert forall i :: 0 <= i < |p| ==> p[i] == s[i];
  }

  /** The unwinding theorem: for every list of calls and every failure position, a failed probe
      leaves the books as they were and a successful one adds exactly its resources. */
  lemma ProbeIsAllOrNothing<R>(b: Books<R>, calls: seq<Option<R>>, fail: nat)
    requires NoDup(Taken(calls)) && Elems(Taken(calls)) !! b.held
    ensures Replay(b, ProbeLog(calls, fail)) ==
            if fail < |calls| then b else Books(b.held + Elems(Taken(calls)), b.clean)
  {
    if fail < |calls| {
      var taken := Taken(calls[..fail]);
      TakenPrefix(calls, fail);
      PrefixOf(taken, Taken(calls));
      ReversedSame(taken);
      RemoveUndoesProbe(b, taken, Reversed(taken));
    } else {
      ReplayAcquires(b, Taken(calls));
    }
  }

  /** A log releases only resources that some acquire of the same probe took. */
  lemma ProbeReleasesTaken<R>(calls: seq<Option<R>>, fail: nat, x: R)
    requires Release(x) in ProbeLog(calls, fail)
    ensures fail < |calls| && x in Taken(calls[..fail])
  {
    var log := ProbeLog(calls, fail);
    var i :| 0 <= i < |log| && log[i] == Release(x);
  }
}
