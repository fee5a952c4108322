/** Failure states, retry, restoration and conservation for GCP, over all scripts. */
module GcpTheorems {
  import opened Wrappers
  import opened Lists
  import opened GcpLists
  import opened GcpProtocol
  import opened GcpMoves
  import Runs

  ghost predicate Ready(s: St, me: string) {
    WellFormed(s.c) && me in s.c.instances
  }

  function AccessOf(s: St, me: string): Access
    requires me in s.c.instances
  {
    s.c.instances[me].access
  }

  /** Nobody else acts. */
  ghost predicate Alone(sc: Script) {
    forall n: nat :: sc(n).others == []
  }

  /** Both states are fit for `me`, of one project, and if nobody else acted the addresses that are free
      or `me`'s are the same. */
  ghost predicate Linked(s: St, s': St, me: string, sc: Script) {
    && Ready(s, me) && Ready(s', me) && SamePool(s.c, s'.c) && s'.c.instances.Keys == s.c.instances.Keys
    && s'.c.ipv6 == s.c.ipv6
    && s'.c.instances[me].hasNic == s.c.instances[me].hasNic
    && (Alone(sc) ==> FreeOrMine(s'.c, me) == FreeOrMine(s.c, me))
  }

  /** The instance is as it was, or has lost its access config. */
  ghost predicate KeptOrBare(s: St, s': St, me: string, sc: Script) {
    Linked(s, s', me, sc) && (AccessOf(s', me) == AccessOf(s, me) || AccessOf(s', me).Bare?)
  }

  /** Interference leaves the instance, and its static address, alone. */
  lemma BeforeKeeps(s: St, me: string, sc: Script)
    requires Ready(s, me)
    ensures Allowed(s.c, Before(s, me, sc), me) && (Alone(sc) ==> Before(s, me, sc) == s.c)
  {
    var others := sc(s.n).others;
    var ms := Filtered(NotBy(me), others);
    forall i | 0 <= i < |ms| ensures ms[i].a != me { FilteredMember(NotBy(me), others, ms[i]); }
    OthersAllowed(s.c, ms, me);
    hide Make, WellFormed;
  }

  // ----- What the caller is told -----

  /** With polls that report one operation ending in DONE, an error being set only then, the caller is
      misled exactly about an operation that had already failed when the call returned it. */
  lemma MisledExactly(t: Turn)
    requires Truthful(t.op, t.polls)
    ensures Misled(t) <==> t.op.failed
  {
    WaitTellsExactly(t.op, t.polls);
  }

  /** The caller takes a call for failed, once it went through, exactly when the operation it returned was
      not done and the first poll that does not leave it pending says that it failed. */
  lemma ReportsExactly(t: Turn)
    ensures !Reports(t) <==>
              !t.op.done && exists i: nat :: FirstDecisive(t.polls, i) && t.polls[i].Answer? && t.polls[i].op.failed
  {
    FoundFailedExactly(t.op.done, t.polls);
    hide Waited;
  }

  /** The last call's operation decides: `access` if it took effect, none if the caller was misled. */
  ghost predicate Given(sc: Script, s: St, me: string, access: Access)
    requires me in s.c.instances
  {
    s.n > 0 && AccessOf(s, me) == if Misled(sc(s.n - 1)) then Bare else access
  }

  /** A listing of used addresses names the instance exactly when it holds a static one. */
  lemma {:induction false} ListedExactly(c: Cloud, me: string)
    requires WellFormed(c) && me in c.instances
    ensures LastNaming(Filtered(IsUsed(), c.addresses), me).Some? <==> c.instances[me].access.Static?
    ensures c.instances[me].access.Static? ==>
              LastNaming(Filtered(IsUsed(), c.addresses), me) == Some(c.addresses[c.instances[me].access.id].address)
  {
    var items := Filtered(IsUsed(), c.addresses);
    var at := FilteredExactly(IsUsed(), c.addresses);
    LookupExactly(items, me);
    if LastNaming(items, me).Some? {
      var i :| 0 <= i < |items| && GcpLists.Names(items[i], me) && LastNaming(items, me).value == items[i].address;
      assert items[i] == c.addresses[at[i]];
    }
    if c.instances[me].access.Static? {
      var id := c.instances[me].access.id;
      assert id in at;
      var k :| 0 <= k < |at| && at[k] == id;
      assert GcpLists.Names(items[k], me);
    }
  }

  // ----- What each part does to the instance -----

  /** A call that only reads. */
  lemma ReadKeeps(s: St, me: string, sc: Script)
    requires Ready(s, me)
    ensures var s' := St(Before(s, me, sc), s.n + 1);
      Linked(s, s', me, sc) && s'.c.instances[me] == s.c.instances[me]
      && GetInstance(s, me, sc).0 == s' && ListInUse(s, me, sc).0 == s' && ListReserved(s, me, sc).0 == s'
      && (GetInstance(s, me, sc).1.Some? ==> GetInstance(s, me, sc).1.value == s.c.instances[me])
  {
    BeforeKeeps(s, me, sc);
  }

  lemma DeleteKeeps(s: St, me: string, sc: Script, snapshot: Instance)
    requires Ready(s, me)
    ensures var (s', r) := Delete(s, me, sc, snapshot);
      && Linked(s, s', me, sc) && s'.n <= s.n + 1
      && (r.Ok? ==> if Misled(sc(s.n)) then s'.c.instances[me] == s.c.instances[me] else AccessOf(s', me).Bare?)
      && (!r.Ok? ==> s'.c.instances[me] == s.c.instances[me])
  {
    BeforeKeeps(s, me, sc);
    DeletedKeeps(Before(s, me, sc), me);
    hide WellFormed, Before, Deleted, Truthful, Waited;
  }

  lemma AddKeeps(s: St, me: string, sc: Script, snapshot: Instance, address: Option<nat>)
    requires Ready(s, me)
    ensures var (s', ok) := Add(s, me, sc, snapshot, address);
      && Linked(s, s', me, sc) && s'.n <= s.n + 1
      && (ok ==> AccessOf(s, me).Bare? && s'.n == s.n + 1
                 && Given(sc, s', me, if address.Some? then Static(address.value) else Ephemeral))
      && (!ok ==> s'.c.instances[me] == s.c.instances[me])
  {
    BeforeKeeps(s, me, sc);
    var c := Before(s, me, sc);
    if CanAdd(c, me, snapshot, address) { AddedKeeps(c, me, snapshot, address); }
    hide WellFormed, Before, Added, Truthful, Waited;
  }

  lemma TryKeeps(s: St, me: string, sc: Script, snapshot: Instance, id: nat)
    requires Ready(s, me)
    ensures var (s', ok) := Try(s, me, sc, snapshot, id);
      && Linked(s, s', me, sc)
      && (ok ==> AccessOf(s, me).Bare? && Given(sc, s', me, Static(id)))
      && (!ok ==> s'.c.instances[me] == s.c.instances[me])
  {
    ReadKeeps(s, me, sc);
    var s1 := GetAddress(s, me, sc, id).0;
    AddKeeps(s1, me, sc, snapshot, Some(id));
    hide WellFormed, Before, Add, Misled;
  }

  lemma {:induction false} TryAllKeeps(s: St, me: string, sc: Script, snapshot: Instance, ids: seq<nat>, k: nat)
    requires Ready(s, me) && k <= |ids|
    ensures var (s', r) := TryAll(s, me, sc, snapshot, ids, k);
      && Linked(s, s', me, sc)
      && (r.BoundAt? ==> k <= r.k < |ids| && AccessOf(s, me).Bare? && Given(sc, s', me, Static(ids[r.k])))
      && (!r.BoundAt? ==> s'.c.instances[me] == s.c.instances[me])
    decreases |ids| - k
  {
    hide WellFormed, Try, Misled;
    if k < |ids| && !sc(s.n).cancelled {
      TryKeeps(s, me, sc, snapshot, ids[k]);
      var (s1, ok) := Try(s, me, sc, snapshot, ids[k]);
      if !ok { TryAllKeeps(s1, me, sc, snapshot, ids, k + 1); }
    }
  }

  /** The fallback loop is "first candidate in order that binds": it goes through the states `ss`, every
      candidate before the last one tried failed, none after it was touched, and an uncancelled loop
      fails only after all of them failed. */
  lemma {:induction false} FirstThatBinds(s: St, me: string, sc: Script, snapshot: Instance, ids: seq<nat>, k: nat)
      returns (ss: seq<St>)
    requires k <= |ids|
    ensures 1 <= |ss| <= |ids| - k + 1 && ss[0] == s && ss[|ss| - 1] == TryAll(s, me, sc, snapshot, ids, k).0
    ensures forall j :: 0 <= j < |ss| - 1 ==> Tried(ss, j, me, sc, snapshot, ids, k)
    ensures var r := TryAll(s, me, sc, snapshot, ids, k).1;
      && (forall j :: 0 <= j < |ss| - 1 ==>
            (Try(ss[j], me, sc, snapshot, ids[k + j]).1 <==> r.BoundAt? && r.k == k + j))
      && (r.BoundAt? ==> |ss| - 1 == r.k + 1 - k)
      && (r.Exhausted? ==> |ss| - 1 == |ids| - k)
      && (r.LoopCancelled? ==> sc(ss[|ss| - 1].n).cancelled)
    decreases |ids| - k
  {
    hide Try;
    if k == |ids| || sc(s.n).cancelled {
      ss := [s];
    } else {
      var (s1, ok) := Try(s, me, sc, snapshot, ids[k]);
      if ok {
        ss := [s, s1];
      } else {
        var rest := FirstThatBinds(s1, me, sc, snapshot, ids, k + 1);
        ss := [s] + rest;
        forall j | 0 <= j < |ss| - 1
          ensures Tried(ss, j, me, sc, snapshot, ids, k)
          ensures var r := TryAll(s, me, sc, snapshot, ids, k).1;
                  Try(ss[j], me, sc, snapshot, ids[k + j]).1 <==> r.BoundAt? && r.k == k + j
        {
          if j > 0 {
            assert Tried(rest, j - 1, me, sc, snapshot, ids, k + 1);
            assert ss[j] == rest[j - 1] && ss[j + 1] == rest[j];
            assert ids[k + j] == ids[k + 1 + (j - 1)];
          } else {
            BoundLater(s1, me, sc, snapshot, ids, k + 1);
          }
        }
      }
    }
  }

  lemma {:induction false} BoundLater(s: St, me: string, sc: Script, snapshot: Instance, ids: seq<nat>, k: nat)
    requires k <= |ids|
    ensures var r := TryAll(s, me, sc, snapshot, ids, k).1; r.BoundAt? ==> k <= r.k < |ids|
    decreases |ids| - k
  {
    hide Try;
    if k < |ids| { BoundLater(Try(s, me, sc, snapshot, ids[k]).0, me, sc, snapshot, ids, k + 1); }
  }

  /** In the j-th state candidate k + j was tried, uncancelled, which led to the next state. */
  ghost predicate Tried(ss: seq<St>, j: nat, me: string, sc: Script, snapshot: Instance, ids: seq<nat>, k: nat)
    requires j + 1 < |ss| && k + j < |ids|
  {
    !sc(ss[j].n).cancelled && Try(ss[j], me, sc, snapshot, ids[k + j]).0 == ss[j + 1]
  }

  // ----- Failure states of Assign -----

  /** The check finds the static address exactly when the instance holds one. */
  lemma CheckKeeps(s: St, me: string, sc: Script)
    requires Ready(s, me)
    ensures var (s', check) := CheckStatic(s, me, sc);
      && Linked(s, s', me, sc) && s'.c.instances[me] == s.c.instances[me]
      && (check.AlreadyHas? ==> AccessOf(s, me).Static? && check.address == s'.c.addresses[AccessOf(s, me).id].address)
      && (check.Proceed? ==> !AccessOf(s, me).Static? && check.instance == s.c.instances[me])
  {
    ReadKeeps(s, me, sc);
    var s1 := GetInstance(s, me, sc).0;
    ReadKeeps(s1, me, sc);
    var s2 := ListInUse(s1, me, sc).0;
    ListedExactly(s2.c, me);
    hide WellFormed, Before, LastNaming;
  }

  /** The instance has the address `text`, unless the caller was misled about the last call. */
  ghost predicate Assigned(sc: Script, s: St, me: string, text: string)
    requires me in s.c.instances
  {
    exists id :: 0 <= id < |s.c.addresses| && s.c.addresses[id].address == text && Given(sc, s, me, Static(id))
  }

  lemma RebindKeeps(s: St, me: string, sc: Script, instance: Instance, ids: seq<nat>)
    requires Ready(s, me)
    ensures var (s', r) := Rebind(s, me, sc, instance, ids);
      && Linked(s, s', me, sc)
      && (r.Failure? ==> AccessOf(s', me) == AccessOf(s, me) || AccessOf(s', me).Bare?)
      && (r.Failure? ==> r.error.DeleteFailed? || r.error.RefreshFailed? || r.error.NotAssigned?)
      && (r.Failure? && r.error.DeleteFailed? ==> AccessOf(s', me) == AccessOf(s, me))
      && (r.Success? ==> Assigned(sc, s', me, r.value))
  {
    hide WellFormed, Before, Delete, TryAll, Misled;
    DeleteKeeps(s, me, sc, instance);
    var s1 := Delete(s, me, sc, instance).0;
    ReadKeeps(s1, me, sc);
    var (s2, refreshed) := GetInstance(s1, me, sc);
    if refreshed.Some? {
      TryAllKeeps(s2, me, sc, refreshed.value, ids, 0);
      TriedInRange(s2, me, sc, refreshed.value, ids, 0);
    }
  }

  /** An address that was added exists. */
  lemma {:induction false} TriedInRange(s: St, me: string, sc: Script, snapshot: Instance, ids: seq<nat>, k: nat)
    requires Ready(s, me) && k <= |ids|
    ensures var (s', r) := TryAll(s, me, sc, snapshot, ids, k);
      r.BoundAt? ==> r.k < |ids| && ids[r.k] < |s'.c.addresses|
    decreases |ids| - k
  {
    hide WellFormed, Misled, Before, Added;
    if k < |ids| && !sc(s.n).cancelled {
      TryKeeps(s, me, sc, snapshot, ids[k]);
      TryInRange(s, me, sc, snapshot, ids[k]);
      var (s1, ok) := Try(s, me, sc, snapshot, ids[k]);
      if !ok { TriedInRange(s1, me, sc, snapshot, ids, k + 1); }
    }
  }

  lemma TryInRange(s: St, me: string, sc: Script, snapshot: Instance, id: nat)
    requires Ready(s, me)
    ensures var (s', ok) := Try(s, me, sc, snapshot, id); ok ==> id < |s'.c.addresses|
  {
    BeforeKeeps(s, me, sc);
    var s1 := GetAddress(s, me, sc, id).0;
    AddKeeps(s1, me, sc, snapshot, Some(id));
    hide WellFormed, Misled, Before, Add;
  }

  lemma StaticInRange(s: St, me: string)
    requires Ready(s, me)
    ensures AccessOf(s, me).Static? ==> AccessOf(s, me).id < |s.c.addresses|
  {
  }

  /** A failing Assign leaves the instance as it was or with no access config, and as it was when no
      candidate was listed. A successful one leaves it with the address it returned, unless it was given
      just now and the caller was misled about the operation that added it: then it has none. */
  lemma AssignOutcome(s: St, me: string, sc: Script)
    requires Ready(s, me)
    ensures var (s', r) := Assign(s, me, sc);
      && Linked(s, s', me, sc)
      && (r.Failure? ==> KeptOrBare(s, s', me, sc))
      && (r.Failure? && !r.error.RefreshFailed? && !r.error.NotAssigned? ==> AccessOf(s', me) == AccessOf(s, me))
      && (r.Success? && AccessOf(s, me).Static? ==>
            AccessOf(s', me) == AccessOf(s, me) && AccessOf(s', me).id < |s'.c.addresses|
            && r.value == s'.c.addresses[AccessOf(s', me).id].address)
      && (r.Success? && !AccessOf(s, me).Static? ==> Assigned(sc, s', me, r.value))
  {
    hide WellFormed, Before, CheckStatic, Rebind, ListReserved, Assigned;
    CheckKeeps(s, me, sc);
    var (s1, check) := CheckStatic(s, me, sc);
    StaticInRange(s1, me);
    ReadKeeps(s1, me, sc);
    var (s2, ids) := ListReserved(s1, me, sc);
    if check.Proceed? && ids.Some? { RebindKeeps(s2, me, sc, check.instance, ids.value); }
  }

  /** The instance has a static address with the text `text`. */
  ghost predicate HasAddress(s: St, me: string, text: string)
    requires me in s.c.instances
  {
    AccessOf(s, me).Static? && AccessOf(s, me).id < |s.c.addresses| && s.c.addresses[AccessOf(s, me).id].address == text
  }

  /** An Assign that reports a newly given address tells the truth if and only if the operation of its
      last call had not already failed when it was returned. */
  lemma AssignTruthExactly(s: St, me: string, sc: Script)
    requires Ready(s, me) && !AccessOf(s, me).Static?
    ensures var (s', r) := Assign(s, me, sc);
      r.Success? ==>
        && s'.n > 0 && me in s'.c.instances
        && var last := sc(s'.n - 1);
        Truthful(last.op, last.polls) ==>
          && (HasAddress(s', me, r.value) <==> !last.op.failed)
          && (!HasAddress(s', me, r.value) ==> AccessOf(s', me).Bare?)
  {
    hide Assign, WellFormed, Misled, Truthful;
    AssignOutcome(s, me, sc);
    var (s', r) := Assign(s, me, sc);
    if r.Success? && Truthful(sc(s'.n - 1).op, sc(s'.n - 1).polls) { MisledExactly(sc(s'.n - 1)); }
  }

  /** The input on which it does not: an instance without access config, one free address, and calls whose
      operations come back DONE with an error. */
  lemma AssignMisleads()
    ensures var c := Cloud([Item("192.0.2.1", [])], map["a" := Instance(true, Bare, 0)], false);
      var sc := (n: nat) => Turn([], false, false, [0], Operation(true, true), [], false);
      var (s', r) := Assign(St(c, 0), "a", sc);
      Ready(St(c, 0), "a") && r == Success("192.0.2.1") && "a" in s'.c.instances && AccessOf(s', "a").Bare?
  {
    var c := Cloud([Item("192.0.2.1", [])], map["a" := Instance(true, Bare, 0)], false);
    var sc := (n: nat) => Turn([], false, false, [0], Operation(true, true), [], false);
    var i := Instance(true, Bare, 0);
    Quiet(c, "a", sc);
    assert c.addresses == [Item("192.0.2.1", [])] && Filtered(IsUsed(), c.addresses) == [];
    assert Filtered(IsFree(c), [0]) == [0];
    assert CheckStatic(St(c, 0), "a", sc) == (St(c, 2), Proceed(i));
    assert ListReserved(St(c, 2), "a", sc) == (St(c, 3), Some([0]));
    assert Try(St(c, 4), "a", sc, i, 0) == (St(c, 6), true);
    assert TryAll(St(c, 4), "a", sc, i, [0], 0) == (St(c, 6), BoundAt(0));
  }

  lemma Quiet(c: Cloud, me: string, sc: Script)
    requires Alone(sc)
    ensures forall n: nat :: Before(St(c, n), me, sc) == c
  {
    assert Filtered(NotBy(me), []) == [];
  }

  // ----- Retry -----

  /** Nothing fails; others may still call. */
  ghost predicate FaultFree(sc: Script) {
    forall n: nat :: !sc(n).fault && !sc(n).cancelled && Takes(sc(n))
  }

  predicate Claims(m: Move, id: nat) {
    m.Adds? && m.address == Some(id)
  }

  /** Others may do anything but take this address. */
  ghost predicate NobodyTakes(sc: Script, id: nat) {
    forall n: nat, m :: m in sc(n).others ==> !Claims(m, id)
  }

  /** All that others do is what an Unassign does, which runs outside the lock. */
  ghost predicate OthersRelease(sc: Script) {
    forall n: nat, m :: m in sc(n).others ==> m.Deletes? || m.address.None?
  }

  /** The state after one Assign per script. */
  ghost function Attempts(s: St, me: string, scripts: seq<Script>): St {
    if |scripts| == 0 then s else Assign(Attempts(s, me, scripts[..|scripts| - 1]), me, scripts[|scripts| - 1]).0
  }

  ghost predicate AllFail(s: St, me: string, scripts: seq<Script>) {
    forall i :: 0 <= i < |scripts| ==> Assign(Attempts(s, me, scripts[..i]), me, scripts[i]).1.Failure?
  }

  /** Any number of failures never takes the instance further than losing its access config. */
  lemma {:induction false} FailuresLeave(s: St, me: string, scripts: seq<Script>)
    requires Ready(s, me) && AllFail(s, me, scripts)
    ensures var t := Attempts(s, me, scripts);
      Ready(t, me) && (AccessOf(t, me) == AccessOf(s, me) || AccessOf(t, me).Bare?)
      && t.c.instances[me].hasNic == s.c.instances[me].hasNic
  {
    hide Assign, WellFormed;
    if |scripts| > 0 {
      var n := |scripts| - 1;
      assert AllFail(s, me, scripts[..n]) by {
        forall i | 0 <= i < n ensures Assign(Attempts(s, me, scripts[..n][..i]), me, scripts[..n][i]).1.Failure? {
          assert scripts[..n][..i] == scripts[..i];
        }
      }
      FailuresLeave(s, me, scripts[..n]);
      AssignOutcome(Attempts(s, me, scripts[..n]), me, scripts[n]);
    }
  }

  /** The candidates of an Assign, as they are listed in the course of it. */
  ghost function Listing(s: St, me: string, sc: Script): seq<nat> {
    var ids := ListReserved(CheckStatic(s, me, sc).0, me, sc).1;
    if ids.Some? then ids.value else []
  }

  lemma {:induction false} FreeAfter(c: Cloud, ms: seq<Move>, id: nat)
    requires Free(c, id) && forall i :: 0 <= i < |ms| ==> !Claims(ms[i], id)
    ensures Free(Runs.Exec(Make, c, ms), id)
  {
    if |ms| > 0 { FreeAfter(c, ms[..|ms| - 1], id); }
  }

  lemma FreeStays(s: St, me: string, sc: Script, id: nat)
    requires Free(s.c, id) && NobodyTakes(sc, id)
    ensures Free(Before(s, me, sc), id)
  {
    var others := sc(s.n).others;
    var ms := Filtered(NotBy(me), others);
    forall i | 0 <= i < |ms| ensures !Claims(ms[i], id) { FilteredMember(NotBy(me), others, ms[i]); }
    FreeAfter(s.c, ms, id);
  }

  /** A fault-free try of an address that is free and that nobody else takes succeeds. */
  lemma TryTakesFree(s: St, me: string, sc: Script, snapshot: Instance, id: nat)
    requires Ready(s, me) && FaultFree(sc) && NobodyTakes(sc, id) && Free(s.c, id)
    requires snapshot == s.c.instances[me] && snapshot.hasNic && snapshot.access.Bare?
    ensures Try(s, me, sc, snapshot, id).1
  {
    var s1 := GetAddress(s, me, sc, id).0;
    ReadKeeps(s, me, sc);
    FreeStays(s, me, sc, id);
    FreeStays(s1, me, sc, id);
    BeforeKeeps(s, me, sc);
    BeforeKeeps(s1, me, sc);
    hide WellFormed, Before, Added, Linked, Waited, Truthful;
    assert GetAddress(s, me, sc, id) == (s1, Some(false));
  }

  /** A try that fails for another reason leaves it free. */
  lemma FailedTryKeepsFree(s: St, me: string, sc: Script, snapshot: Instance, id: nat, target: nat)
    requires Free(s.c, target) && NobodyTakes(sc, target) && !Try(s, me, sc, snapshot, id).1
    ensures Free(Try(s, me, sc, snapshot, id).0.c, target)
  {
    var s1 := GetAddress(s, me, sc, id).0;
    FreeStays(s, me, sc, target);
    FreeStays(s1, me, sc, target);
    hide Before, Added, CanAdd, Waited, Truthful, Free;
  }

  lemma {:induction false} TryAllFinds(s: St, me: string, sc: Script, snapshot: Instance, ids: seq<nat>, k: nat,
      target: nat)
    requires Ready(s, me) && FaultFree(sc) && k <= target < |ids|
    requires NobodyTakes(sc, ids[target]) && Free(s.c, ids[target])
    requires snapshot == s.c.instances[me] && snapshot.hasNic && snapshot.access.Bare?
    ensures var r := TryAll(s, me, sc, snapshot, ids, k).1; r.BoundAt? && r.k <= target
    decreases target - k
  {
    TryKeeps(s, me, sc, snapshot, ids[k]);
    var (s1, ok) := Try(s, me, sc, snapshot, ids[k]);
    assert !sc(s.n).cancelled;
    hide WellFormed, Try, Free, Takes, Misled, NobodyTakes;
    if k == target {
      TryTakesFree(s, me, sc, snapshot, ids[k]);
    } else if !ok {
      FailedTryKeepsFree(s, me, sc, snapshot, ids[k], ids[target]);
      TryAllFinds(s1, me, sc, snapshot, ids, k + 1, target);
    }
  }

  lemma DeleteKeepsFree(s: St, me: string, sc: Script, snapshot: Instance, id: nat)
    requires Free(s.c, id) && NobodyTakes(sc, id)
    ensures Free(Delete(s, me, sc, snapshot).0.c, id)
  {
    FreeStays(s, me, sc, id);
    hide Before;
  }

  /** A fault-free deletion of the instance's own config. */
  lemma DeleteWorks(s: St, me: string, sc: Script, instance: Instance)
    requires Ready(s, me) && FaultFree(sc) && instance == s.c.instances[me] && instance.hasNic
    ensures var (s1, r) := Delete(s, me, sc, instance);
      && !r.Err? && (r.NoPublicIP? <==> instance.access.Bare?) && Ready(s1, me)
      && s1.c.instances[me].access.Bare? && s1.c.instances[me].hasNic
  {
    BeforeKeeps(s, me, sc);
    DeleteKeeps(s, me, sc, instance);
    hide WellFormed, Before, Deleted, Waited, Truthful;
  }

  /** The refreshed fingerprint is what makes the add acceptable with IPv6. */
  lemma RefreshWorks(s: St, me: string, sc: Script)
    requires Ready(s, me) && FaultFree(sc)
    ensures var (s1, r) := GetInstance(s, me, sc);
      && Ready(s1, me) && r == Some(s.c.instances[me]) && s1.c.instances[me] == s.c.instances[me]
      && s1.c.ipv6 == s.c.ipv6 && s1 == St(Before(s, me, sc), s.n + 1)
  {
    ReadKeeps(s, me, sc);
    hide WellFormed, Before;
  }

  lemma NotMisled(sc: Script)
    requires FaultFree(sc)
    ensures forall n: nat :: !Misled(sc(n))
  {
  }

  lemma RebindFinds(s: St, me: string, sc: Script, instance: Instance, ids: seq<nat>, target: nat)
    requires Ready(s, me) && FaultFree(sc) && instance == s.c.instances[me] && instance.hasNic
    requires target < |ids| && Free(s.c, ids[target]) && NobodyTakes(sc, ids[target])
    ensures var (s', r) := Rebind(s, me, sc, instance, ids);
      r.Success? && Ready(s', me) && exists j :: 0 <= j <= target && AccessOf(s', me) == Static(ids[j])
  {
    hide WellFormed, Delete, TryAll, Before, Free, Takes, Misled, NobodyTakes;
    DeleteWorks(s, me, sc, instance);
    DeleteKeepsFree(s, me, sc, instance, ids[target]);
    var s1 := Delete(s, me, sc, instance).0;
    RefreshWorks(s1, me, sc);
    FreeStays(s1, me, sc, ids[target]);
    var s2 := GetInstance(s1, me, sc).0;
    TryAllFinds(s2, me, sc, s1.c.instances[me], ids, 0, target);
    TryAllKeeps(s2, me, sc, s1.c.instances[me], ids, 0);
    TriedInRange(s2, me, sc, s1.c.instances[me], ids, 0);
    NotMisled(sc);
  }

  /** A fault-free check answers. */
  lemma CheckWorks(s: St, me: string, sc: Script)
    requires Ready(s, me) && FaultFree(sc)
    ensures !CheckStatic(s, me, sc).1.CheckError?
  {
    RefreshWorks(s, me, sc);
    hide WellFormed, Before, LastNaming;
  }

  /** What is listed is free when it is listed. */
  lemma ListedFree(s: St, me: string, sc: Script)
    ensures var (s1, ids) := ListReserved(s, me, sc);
      ids.Some? ==> forall i :: 0 <= i < |ids.value| ==> Free(s1.c, ids.value[i])
  {
    var s1 := ListReserved(s, me, sc).0;
    var selected := sc(s.n).selected;
    var ids := Filtered(IsFree(s1.c), selected);
    forall i | 0 <= i < |ids| ensures Free(s1.c, ids[i]) { FilteredMember(IsFree(s1.c), selected, ids[i]); }
    hide Before;
  }

  lemma ListWorks(s: St, me: string, sc: Script)
    requires Ready(s, me) && FaultFree(sc)
    ensures var (s', ids) := ListReserved(s, me, sc);
      ids.Some? && Ready(s', me) && s'.c.instances[me] == s.c.instances[me]
  {
    ReadKeeps(s, me, sc);
    hide WellFormed, Before;
  }

  /** A fault-free Assign of an instance without static address succeeds, whatever others do meanwhile, as
      soon as its listing has a candidate that nobody else takes: it ends with that one or an earlier one.
      An instance with a static address keeps it. */
  lemma FaultFreeAssign(s: St, me: string, sc: Script, target: nat)
    requires Ready(s, me) && FaultFree(sc) && s.c.instances[me].hasNic
    requires !AccessOf(s, me).Static? ==>
               target < |Listing(s, me, sc)| && NobodyTakes(sc, Listing(s, me, sc)[target])
    ensures var (s', r) := Assign(s, me, sc);
      && r.Success? && Ready(s', me)
      && if AccessOf(s, me).Static? then AccessOf(s', me) == AccessOf(s, me)
         else exists j :: 0 <= j <= target && AccessOf(s', me) == Static(Listing(s, me, sc)[j])
  {
    hide CheckStatic, Rebind, WellFormed, ListReserved, Takes, NobodyTakes;
    CheckWorks(s, me, sc);
    CheckKeeps(s, me, sc);
    var (s1, check) := CheckStatic(s, me, sc);
    if check.Proceed? {
      ListWorks(s1, me, sc);
      ListedFree(s1, me, sc);
      var (s2, ids) := ListReserved(s1, me, sc);
      RebindFinds(s2, me, sc, check.instance, ids.value, target);
    }
  }

  /** In particular under the lock, where others can only release: with any candidate it succeeds, and ends
      with the first listed one. */
  lemma LockedAssign(s: St, me: string, sc: Script)
    requires Ready(s, me) && FaultFree(sc) && OthersRelease(sc) && s.c.instances[me].hasNic
    requires AccessOf(s, me).Static? || |Listing(s, me, sc)| > 0
    ensures var (s', r) := Assign(s, me, sc);
      r.Success? && Ready(s', me)
      && AccessOf(s', me) == if AccessOf(s, me).Static? then AccessOf(s, me) else Static(Listing(s, me, sc)[0])
  {
    hide Assign, WellFormed, Listing, Takes;
    if !AccessOf(s, me).Static? {
      assert NobodyTakes(sc, Listing(s, me, sc)[0]);
    }
    FaultFreeAssign(s, me, sc, 0);
  }

  /** From any state, after any number of failed Assigns under any faults and interference, a later
      fault-free Assign with a candidate that nobody else takes succeeds, with that one or an earlier one,
      unless the instance held a static address all along. */
  lemma {:induction false} RetrySucceeds(s: St, me: string, scripts: seq<Script>, last: Script, target: nat)
    requires Ready(s, me) && s.c.instances[me].hasNic && AllFail(s, me, scripts) && FaultFree(last)
    requires var ids := Listing(Attempts(s, me, scripts), me, last);
      target < |ids| && NobodyTakes(last, ids[target])
    ensures var t := Attempts(s, me, scripts);
      var (t', r) := Assign(t, me, last);
      && r.Success? && me in t'.c.instances && AccessOf(t', me).Static?
      && (!AccessOf(s, me).Static? ==>
            exists j :: 0 <= j <= target && AccessOf(t', me) == Static(Listing(t, me, last)[j]))
  {
    hide Assign, WellFormed, Listing, Takes, NobodyTakes;
    FailuresLeave(s, me, scripts);
    FaultFreeAssign(Attempts(s, me, scripts), me, last, target);
  }

  // ----- Which calls decide -----

  /** The project after the others' turns before the `k`-th call from now, the calls so far only reading. */
  ghost function ReadOn(s: St, me: string, sc: Script, k: nat): St {
    if k == 0 then s else
    var t := ReadOn(s, me, sc, k - 1);
    St(Before(t, me, sc), t.n + 1)
  }

  lemma {:induction false} ReadOnKeeps(s: St, me: string, sc: Script, k: nat)
    requires Ready(s, me)
    ensures var t := ReadOn(s, me, sc, k);
      Linked(s, t, me, sc) && t.c.instances[me] == s.c.instances[me] && t.n == s.n + k
  {
    if k > 0 {
      ReadOnKeeps(s, me, sc, k - 1);
      var t := ReadOn(s, me, sc, k - 1);
      LinkedReady(s, t, me, sc);
      ReadKeeps(t, me, sc);
      LinkedTrans(s, t, ReadOn(s, me, sc, k), me, sc);
    }
    hide WellFormed, Before, FreeOrMine;
  }

  /** The check of an Assign fails exactly when one of its two calls does. */
  lemma {:induction false} CheckExactly(s: St, me: string, sc: Script)
    requires Ready(s, me)
    ensures var (s', check) := CheckStatic(s, me, sc);
      if sc(s.n).fault then check.CheckError? && s' == ReadOn(s, me, sc, 1)
      else
        && s' == ReadOn(s, me, sc, 2)
        && check.CheckError? == sc(s.n + 1).fault
        && (!check.CheckError? ==> (check.AlreadyHas? <==> AccessOf(s, me).Static?))
  {
    ReadOnKeeps(s, me, sc, 1);
    CheckKeeps(s, me, sc);
    assert ReadOn(s, me, sc, 1) == GetInstance(s, me, sc).0;
    assert ReadOn(s, me, sc, 2) == ListInUse(ReadOn(s, me, sc, 1), me, sc).0;
    hide WellFormed, Before, LastNaming, Linked;
  }

  /** With a static address an Assign succeeds exactly when the two calls of its check do, and changes
      nothing. Without one it fails before it changes anything exactly when one of its first three calls
      does, or when the third lists no candidate. */
  lemma {:induction false} FirstCallsDecide(s: St, me: string, sc: Script)
    requires Ready(s, me)
    ensures var (s', r) := Assign(s, me, sc);
      var checked, listed := !sc(s.n).fault && !sc(s.n + 1).fault, ReadOn(s, me, sc, 3);
      && (AccessOf(s, me).Static? || !checked ==>
            (r.Success? <==> checked) && s' == ReadOn(s, me, sc, if sc(s.n).fault then 1 else 2))
      && (!AccessOf(s, me).Static? && checked && sc(s.n + 2).fault ==> r.Failure? && s' == listed)
      && (!AccessOf(s, me).Static? && checked && !sc(s.n + 2).fault ==>
            var ids := Filtered(IsFree(listed.c), sc(s.n + 2).selected);
            if ids == [] then r.Failure? && s' == listed
            else Assign(s, me, sc) == Rebind(listed, me, sc, s.c.instances[me], ids))
  {
    hide WellFormed, SamePool, Before, CheckStatic, Rebind, Linked, IsFree, ReadOn, Assign, ListReserved;
    CheckExactly(s, me, sc);
    CheckKeeps(s, me, sc);
    ReadOnKeeps(s, me, sc, 1);
    ReadOnKeeps(s, me, sc, 2);
    AssignReads(s, me, sc);
    ListsOn(s, me, sc);
    assert CheckStatic(s, me, sc).1.Proceed? ==>
             sc(s.n + 2).fault ==> Assign(s, me, sc) == (ReadOn(s, me, sc, 3), Failure(ListFailed));
  }

  lemma AssignReads(s: St, me: string, sc: Script)
    ensures var (s1, check) := CheckStatic(s, me, sc);
      && (check.CheckError? ==> Assign(s, me, sc) == (s1, Failure(CheckFailed)))
      && (check.AlreadyHas? ==> Assign(s, me, sc) == (s1, Success(check.address)))
      && (check.Proceed? ==>
            var (s2, ids) := ListReserved(s1, me, sc);
            if ids.None? then Assign(s, me, sc) == (s2, Failure(ListFailed))
            else if ids.value == [] then Assign(s, me, sc) == (s2, Failure(NoneAvailable))
            else Assign(s, me, sc) == Rebind(s2, me, sc, check.instance, ids.value))
  {
    hide CheckStatic, ListReserved, Rebind;
  }

  lemma {:induction false} ListsOn(s: St, me: string, sc: Script)
    ensures var s3 := ReadOn(s, me, sc, 3);
      ListReserved(ReadOn(s, me, sc, 2), me, sc) ==
        (s3, if sc(ReadOn(s, me, sc, 2).n).fault then None
             else Some(Filtered(IsFree(s3.c), sc(ReadOn(s, me, sc, 2).n).selected)))
  {
    hide Before, IsFree;
  }

  /** In particular, when nothing is available the instance keeps what it has. */
  lemma NothingAvailable(s: St, me: string, sc: Script)
    requires Ready(s, me) && !AccessOf(s, me).Static? && Listing(s, me, sc) == []
    ensures var (s', r) := Assign(s, me, sc);
      r.Failure? && Linked(s, s', me, sc) && s'.c.instances[me] == s.c.instances[me] && s'.n <= s.n + 3
  {
    FirstCallsDecide(s, me, sc);
    CheckExactly(s, me, sc);
    forall k: nat | k <= 3 ensures var t := ReadOn(s, me, sc, k);
      Linked(s, t, me, sc) && t.c.instances[me] == s.c.instances[me] && t.n == s.n + k
    {
      ReadOnKeeps(s, me, sc, k);
    }
    hide WellFormed, Before, CheckStatic, Rebind, Linked, Assign, IsFree, ReadOn;
  }

  /** With candidates, the next calls decide whether they are tried: an access config that cannot be deleted,
      or an instance that cannot be read again, ends the Assign there and then. */
  lemma NextCallsDecide(s: St, me: string, sc: Script, ids: seq<nat>)
    requires Ready(s, me)
    ensures var (s', r) := Rebind(s, me, sc, s.c.instances[me], ids);
      var m := if AccessOf(s, me).Bare? then s.n else s.n + 1;
      if !s.c.instances[me].hasNic then r == Failure(DeleteFailed) && s' == s
      else if !AccessOf(s, me).Bare? && !Accepted(sc(s.n)) then
        r == Failure(DeleteFailed) && s'.n == s.n + 1 && me in s'.c.instances && AccessOf(s', me) == AccessOf(s, me)
      else if sc(m).fault then r == Failure(RefreshFailed) && s'.n == m + 1
      else r.Success? || r.error.NotAssigned?
  {
    hide WellFormed, Deleted, TryAll;
    BeforeKeeps(s, me, sc);
    DeleteKeeps(s, me, sc, s.c.instances[me]);
    var s1 := Delete(s, me, sc, s.c.instances[me]).0;
    ReadKeeps(s1, me, sc);
    hide Before, Waited, Truthful;
  }

  /** The call goes through and its operation is not found failed. */
  predicate Accepted(t: Turn) {
    !t.fault && Reports(t)
  }

  /** A candidate is added if and only if its status could be read, it was free then, and the call that adds
      it is accepted and not found failed; otherwise, short of that call, nothing is changed. */
  lemma TryExactly(s: St, me: string, sc: Script, snapshot: Instance, id: nat)
    ensures var (s', ok) := Try(s, me, sc, snapshot, id);
      var c := Before(s, me, sc);
      var d := Before(St(c, s.n + 1), me, sc);
      if sc(s.n).fault || !Free(c, id) || !snapshot.hasNic then !ok && s' == St(c, s.n + 1)
      else
        var accepted := !sc(s.n + 1).fault && CanAdd(d, me, snapshot, Some(id));
        && (ok <==> accepted && Reports(sc(s.n + 1)))
        && s'.n == s.n + 2
        && (!(accepted && Takes(sc(s.n + 1))) ==> s'.c == d)
        && (accepted && Takes(sc(s.n + 1)) ==>
              && me in s'.c.instances && s'.c.instances[me].access == Static(id)
              && id < |s'.c.addresses| && s'.c.addresses[id].users == [me])
  {
    hide Before, Waited, Truthful;
  }

  // ----- Unassign -----

  /** At most `left` adds, stopping at the first that is reported a success. */
  lemma {:induction false} AddEphemeralKeeps(s: St, me: string, sc: Script, snapshot: Instance, left: nat)
    requires Ready(s, me)
    ensures var (s', ok) := AddEphemeral(s, me, sc, snapshot, left);
      && Linked(s, s', me, sc) && s'.n <= s.n + left
      && (ok ==> AccessOf(s, me).Bare? && Given(sc, s', me, Ephemeral))
         && (!ok ==> s'.c.instances[me] == s.c.instances[me])
    decreases left
  {
    hide WellFormed, Add, Misled;
    if left > 0 && !sc(s.n).cancelled {
      AddKeeps(s, me, sc, snapshot, None);
      var (s1, ok) := Add(s, me, sc, snapshot, None);
      if !ok { AddEphemeralKeeps(s1, me, sc, snapshot, left - 1); }
    }
  }

  /** Call number `last`, among the `left` calls from number `from` on, is the first that is accepted, and
      the context is not cancelled up to it. */
  ghost predicate FirstSuccess(sc: Script, from: nat, left: nat, last: nat) {
    && from <= last < from + left && Accepted(sc(last))
    && (forall i: nat :: from <= i < last ==> !Accepted(sc(i)))
    && (forall i: nat :: from <= i <= last ==> !sc(i).cancelled)
  }

  ghost predicate SomeSuccess(sc: Script, from: nat, left: nat) {
    exists last :: FirstSuccess(sc, from, left, last)
  }

  /** An ephemeral config can be added to a bare instance whatever the others do. */
  lemma CanAddKept(s: St, me: string, sc: Script, snapshot: Instance)
    requires Ready(s, me) && CanAdd(s.c, me, snapshot, None)
    ensures CanAdd(Before(s, me, sc), me, snapshot, None)
  {
    BeforeKeeps(s, me, sc);
    hide WellFormed, Before;
  }

  lemma AddStep(s: St, me: string, sc: Script, snapshot: Instance)
    requires Ready(s, me) && snapshot.hasNic && CanAdd(s.c, me, snapshot, None)
    ensures var (s1, ok) := Add(s, me, sc, snapshot, None);
      ok == Accepted(sc(s.n)) && s1.n == s.n + 1 && (!ok ==> Ready(s1, me) && CanAdd(s1.c, me, snapshot, None))
  {
    CanAddKept(s, me, sc, snapshot);
    AddKeeps(s, me, sc, snapshot, None);
    hide WellFormed, Before, Misled;
  }

  lemma FirstSuccessLater(sc: Script, from: nat, left: nat, last: nat)
    requires left > 0 && !sc(from).cancelled && !Accepted(sc(from))
    ensures FirstSuccess(sc, from, left, last) <==> FirstSuccess(sc, from + 1, left - 1, last)
  {
    hide Accepted;
  }

  /** Exactly when it reports success, whatever the others do, and that the accepted call is the last one. */
  lemma {:induction false} AddEphemeralExactly(s: St, me: string, sc: Script, snapshot: Instance, left: nat)
    requires Ready(s, me) && snapshot.hasNic && CanAdd(s.c, me, snapshot, None)
    ensures var (s', ok) := AddEphemeral(s, me, sc, snapshot, left);
      (ok <==> exists last :: FirstSuccess(sc, s.n, left, last))
          && (ok ==> s'.n > 0 && FirstSuccess(sc, s.n, left, s'.n - 1))
    decreases left
  {
    if left > 0 && !sc(s.n).cancelled {
      AddStep(s, me, sc, snapshot);
      var (s1, ok) := Add(s, me, sc, snapshot, None);
      if ok {
        hide Add, CanAdd, Ready;
        assert FirstSuccess(sc, s.n, left, s.n);
      } else {
        var rest: nat := left - 1;
        AddEphemeralExactly(s1, me, sc, snapshot, rest);
        hide Accepted, Add, CanAdd, Ready;
        assert AddEphemeral(s, me, sc, snapshot, left) == AddEphemeral(s1, me, sc, snapshot, rest);
        forall last: nat ensures FirstSuccess(sc, s.n, left, last) <==> FirstSuccess(sc, s1.n, rest, last) {
          FirstSuccessLater(sc, s.n, left, last);
        }
      }
    }
  }

  lemma LinkedTrans(s: St, t: St, u: St, me: string, sc: Script)
    requires Linked(s, t, me, sc) && Linked(t, u, me, sc)
    ensures Linked(s, u, me, sc)
  {
    hide WellFormed, FreeOrMine, Alone;
  }

  lemma LinkedReady(s: St, t: St, me: string, sc: Script)
    requires Linked(s, t, me, sc)
    ensures Ready(s, me) && Ready(t, me)
  {
  }

  /** Unassign once the instance is known to hold a static address. */
  function ReleaseStatic(s: St, me: string, sc: Script, instance: Instance): (St, bool) {
    var (s3, deleted) := Delete(s, me, sc, instance);
    if !deleted.Ok? then (s3, false) else
    var (s4, refreshed) := GetInstance(s3, me, sc);
    if refreshed.None? then (s4, false) else
    AddEphemeral(s4, me, sc, refreshed.value, MAX_RETRIES)
  }

  lemma ReleaseKeeps(s: St, me: string, sc: Script, instance: Instance)
    requires Ready(s, me)
    ensures var (s', ok) := ReleaseStatic(s, me, sc, instance);
      && Linked(s, s', me, sc)
      && (ok ==> Given(sc, s', me, Ephemeral))
      && (!ok ==> AccessOf(s', me) == AccessOf(s, me) || AccessOf(s', me).Bare?)
      && s'.n <= s.n + 2 + MAX_RETRIES
  {
    hide WellFormed, Before, AddEphemeral, Linked, Delete, Misled;
    DeleteKeeps(s, me, sc, instance);
    var s3 := Delete(s, me, sc, instance).0;
    LinkedReady(s, s3, me, sc);
    ReadKeeps(s3, me, sc);
    var (s4, refreshed) := GetInstance(s3, me, sc);
    LinkedReady(s3, s4, me, sc);
    LinkedTrans(s, s3, s4, me, sc);
    if refreshed.Some? {
      AddEphemeralKeeps(s4, me, sc, refreshed.value, MAX_RETRIES);
      var s5 := AddEphemeral(s4, me, sc, refreshed.value, MAX_RETRIES).0;
      LinkedReady(s4, s5, me, sc);
      LinkedTrans(s, s4, s5, me, sc);
    }
  }

  /** Unassign deletes only the instance's own config, and success on an instance with a static address
      means it now has an ephemeral one, after at most ten adds, unless the caller was misled about
      the operation that added it: then it has none. */
  lemma UnassignOutcome(s: St, me: string, sc: Script)
    requires Ready(s, me)
    ensures var (s', ok) := Unassign(s, me, sc);
      && Linked(s, s', me, sc)
      && (ok && AccessOf(s, me).Static? ==> Given(sc, s', me, Ephemeral))
      && (ok && !AccessOf(s, me).Static? ==> s'.c.instances[me] == s.c.instances[me])
      && (!ok ==> AccessOf(s', me) == AccessOf(s, me) || AccessOf(s', me).Bare?)
      && s'.n <= s.n + 14
  {
    ReadKeeps(s, me, sc);
    var (s1, instance) := GetInstance(s, me, sc);
    ReadKeeps(s1, me, sc);
    var (s2, items) := ListInUse(s1, me, sc);
    ListedExactly(s2.c, me);
    hide WellFormed, Before, LastNaming, Linked, ReleaseStatic, Given;
    LinkedTrans(s, s1, s2, me, sc);
    if instance.Some? && items.Some? && |items.value| > 0 && AccessOf(s2, me).Static? {
      ReleaseKeeps(s2, me, sc, instance.value);
      UnassignIs(s, me, sc);
      LinkedTrans(s, s2, ReleaseStatic(s2, me, sc, instance.value).0, me, sc);
      LinkedReady(s, ReleaseStatic(s2, me, sc, instance.value).0, me, sc);
    }
  }

  lemma {:induction false} UnassignIs(s: St, me: string, sc: Script)
    ensures var (s1, instance) := GetInstance(s, me, sc);
      var (s2, items) := ListInUse(s1, me, sc);
      instance.Some? && items.Some? && LastNaming(items.value, me).Some? ==>
        Unassign(s, me, sc) == ReleaseStatic(s2, me, sc, instance.value)
  {
    hide Delete, AddEphemeral, Before;
  }

  /** An Unassign that reports success on an instance with a static address tells the truth if and only if
      the operation of its last call had not already failed when it was returned. */
  lemma UnassignTruthExactly(s: St, me: string, sc: Script)
    requires Ready(s, me) && AccessOf(s, me).Static?
    ensures var (s', ok) := Unassign(s, me, sc);
      ok ==>
        && s'.n > 0 && me in s'.c.instances
        && var last := sc(s'.n - 1);
        Truthful(last.op, last.polls) ==> AccessOf(s', me) == if last.op.failed then Bare else Ephemeral
  {
    hide Unassign, WellFormed, Misled, Truthful;
    UnassignOutcome(s, me, sc);
    var (s', ok) := Unassign(s, me, sc);
    if ok && Truthful(sc(s'.n - 1).op, sc(s'.n - 1).polls) { MisledExactly(sc(s'.n - 1)); }
  }

  lemma NoneMine(c: Cloud, me: string)
    requires WellFormed(c) && me in c.instances && !c.instances[me].access.Static?
    ensures FreeOrMine(c, me) == FreePool(c)
  {
    forall id: nat | id < |c.addresses| ensures c.addresses[id].users != [me] {
      assert me in [me];
    }
  }

  /** With nobody else acting, an Assign that reports success on an instance without static address,
      followed by an Unassign that does, restores exactly the free set, whatever became of the operations.
      It leaves an ephemeral address if the last call of neither misled. */
  lemma AssignUnassignRestores(s: St, me: string, sc: Script)
    requires Ready(s, me) && Alone(sc) && !AccessOf(s, me).Static?
    requires Assign(s, me, sc).1.Success? && Unassign(Assign(s, me, sc).0, me, sc).1
    ensures var s1 := Assign(s, me, sc).0;
      var t := Unassign(s1, me, sc).0;
      && FreePool(t.c) == FreePool(s.c) && me in t.c.instances
      && (s1.n > 0 && !Misled(sc(s1.n - 1)) && t.n > 0 && !Misled(sc(t.n - 1)) ==> AccessOf(t, me).Ephemeral?)
  {
    hide Assign, Unassign, WellFormed, FreeOrMine, FreePool, Misled;
    AssignOutcome(s, me, sc);
    var s1 := Assign(s, me, sc).0;
    UnassignOutcome(s1, me, sc);
    NoneMine(s.c, me);
    NoneMine(Unassign(s1, me, sc).0.c, me);
  }

  /** An Unassign of an instance without static address succeeds if and only if its two calls do and the
      second lists any used address; either way it changes nothing. */
  lemma {:induction false} NothingToRelease(s: St, me: string, sc: Script)
    requires Ready(s, me) && !AccessOf(s, me).Static?
    ensures var (s', ok) := Unassign(s, me, sc);
      && s' == ReadOn(s, me, sc, if sc(s.n).fault then 1 else 2)
      && me in s'.c.instances && s'.c.instances[me] == s.c.instances[me]
      && (ok <==> !sc(s.n).fault && !sc(s.n + 1).fault
                  && exists id: nat :: id < |s'.c.addresses| && !Free(s'.c, id))
  {
    ReadOnKeeps(s, me, sc, 1);
    ReadOnKeeps(s, me, sc, 2);
    var s2 := ReadOn(s, me, sc, 2);
    assert ReadOn(s, me, sc, 1) == GetInstance(s, me, sc).0 && s2 == ListInUse(ReadOn(s, me, sc, 1), me, sc).0;
    ListedExactly(s2.c, me);
    SomeUsed(s2.c);
    LinkedReady(s, s2, me, sc);
    UnassignReads(s, me, sc);
    hide WellFormed, Before, LastNaming, Linked, Unassign, ReadOn, IsUsed, ListInUse, GetInstance;
  }

  lemma {:induction false} UnassignReads(s: St, me: string, sc: Script)
    requires Ready(s, me)
    ensures var s1, s2 := GetInstance(s, me, sc).0, ListInUse(GetInstance(s, me, sc).0, me, sc).0;
      var items := Filtered(IsUsed(), s2.c.addresses);
      if sc(s.n).fault then Unassign(s, me, sc) == (s1, false)
      else if sc(s.n + 1).fault || |items| == 0 then Unassign(s, me, sc) == (s2, false)
      else LastNaming(items, me).None? ==> Unassign(s, me, sc) == (s2, true)
  {
    ReadKeeps(s, me, sc);
    hide WellFormed, Before, Delete, AddEphemeral;
  }

  lemma SomeUsed(c: Cloud)
    ensures |Filtered(IsUsed(), c.addresses)| > 0 <==> exists id: nat :: id < |c.addresses| && !Free(c, id)
  {
    var at := FilteredExactly(IsUsed(), c.addresses);
    if |at| > 0 { assert !Free(c, at[0]); }
    if id: nat :| id < |c.addresses| && !Free(c, id) { assert id in at; }
  }

  /** An Unassign whose first four calls go through deletes the static address, and succeeds if and only if
      one of the ten calls after them is the first to be accepted, before any cancellation. */
  lemma TenAttempts(s: St, me: string, sc: Script)
    requires Ready(s, me) && AccessOf(s, me).Static? && s.c.instances[me].hasNic
    requires !sc(s.n).fault && !sc(s.n + 1).fault && !sc(s.n + 2).fault && !sc(s.n + 3).fault && Takes(sc(s.n + 2))
    ensures Unassign(s, me, sc).1 <==> SomeSuccess(sc, s.n + 4, 10)
  {
    hide WellFormed, Before, LastNaming, Linked, ReleaseStatic, Takes, Unassign, SomeSuccess;
    ReadOnKeeps(s, me, sc, 1);
    ReadOnKeeps(s, me, sc, 2);
    var s2 := ReadOn(s, me, sc, 2);
    assert ReadOn(s, me, sc, 1) == GetInstance(s, me, sc).0 && s2 == ListInUse(ReadOn(s, me, sc, 1), me, sc).0;
    LinkedReady(s, ReadOn(s, me, sc, 1), me, sc);
    LinkedReady(s, s2, me, sc);
    hide ReadOn;
    ListedExactly(s2.c, me);
    UnassignIs(s, me, sc);
    ReleaseTen(s2, me, sc);
  }

  lemma ReleaseTen(s: St, me: string, sc: Script)
    requires Ready(s, me) && AccessOf(s, me).Static? && s.c.instances[me].hasNic
    requires !sc(s.n).fault && !sc(s.n + 1).fault && Takes(sc(s.n))
    ensures ReleaseStatic(s, me, sc, s.c.instances[me]).1 <==> SomeSuccess(sc, s.n + 2, 10)
  {
    DeleteTakes(s, me, sc);
    hide WellFormed, Before, Linked, Delete, AddEphemeral, Takes, FirstSuccess;
    var s3 := Delete(s, me, sc, s.c.instances[me]).0;
    ReadKeeps(s3, me, sc);
    var s4 := GetInstance(s3, me, sc).0;
    LinkedReady(s3, s4, me, sc);
    AddEphemeralExactly(s4, me, sc, s3.c.instances[me], MAX_RETRIES);
  }

  lemma DeleteTakes(s: St, me: string, sc: Script)
    requires Ready(s, me) && s.c.instances[me].hasNic && !AccessOf(s, me).Bare? && !sc(s.n).fault && Takes(sc(s.n))
    ensures var (s', r) := Delete(s, me, sc, s.c.instances[me]);
      r.Ok? && Ready(s', me) && s'.n == s.n + 1 && AccessOf(s', me).Bare? && s'.c.instances[me].hasNic
  {
    BeforeKeeps(s, me, sc);
    DeleteKeeps(s, me, sc, s.c.instances[me]);
    hide WellFormed, Before, Deleted, Waited, Truthful;
  }

  // ----- An Unassign without faults -----

  /** It succeeds from any state in which the instance holds a static address, whatever others do. */
  lemma FaultFreeUnassign(s: St, me: string, sc: Script)
    requires Ready(s, me) && FaultFree(sc) && s.c.instances[me].hasNic && AccessOf(s, me).Static?
    ensures var (s', ok) := Unassign(s, me, sc); ok && Ready(s', me) && AccessOf(s', me).Ephemeral?
  {
    hide WellFormed, Unassign, Misled, Takes, Linked;
    UnassignOutcome(s, me, sc);
    LinkedReady(s, Unassign(s, me, sc).0, me, sc);
    NotMisled(sc);
    FaultFreeReads(s, me, sc);
  }

  lemma FaultFreeReads(s: St, me: string, sc: Script)
    requires Ready(s, me) && FaultFree(sc) && s.c.instances[me].hasNic && AccessOf(s, me).Static?
    ensures Unassign(s, me, sc).1
  {
    RefreshWorks(s, me, sc);
    var s1 := GetInstance(s, me, sc).0;
    ReadKeeps(s1, me, sc);
    var (s2, items) := ListInUse(s1, me, sc);
    ListedExactly(s2.c, me);
    UnassignIs(s, me, sc);
    assert items.Some?;
    hide WellFormed, LastNaming, Unassign, ReleaseStatic, Before, Takes, Linked;
    LinkedReady(s1, s2, me, sc);
    FaultFreeRelease(s2, me, sc, s.c.instances[me]);
  }

  lemma FaultFreeRelease(s: St, me: string, sc: Script, instance: Instance)
    requires Ready(s, me) && FaultFree(sc) && instance == s.c.instances[me] && instance.hasNic
               && instance.access.Static?
    ensures ReleaseStatic(s, me, sc, instance).1
  {
    hide WellFormed, Delete, Before, Takes, AddEphemeral, FirstSuccess;
    DeleteWorks(s, me, sc, instance);
    var s1 := Delete(s, me, sc, instance).0;
    RefreshWorks(s1, me, sc);
    var s2 := GetInstance(s1, me, sc).0;
    var i := s1.c.instances[me];
    assert CanAdd(s2.c, me, i, None);
    AddEphemeralExactly(s2, me, sc, i, MAX_RETRIES);
    FirstIsAccepted(sc, s2.n);
  }

  lemma FirstIsAccepted(sc: Script, from: nat)
    requires FaultFree(sc)
    ensures FirstSuccess(sc, from, MAX_RETRIES, from)
  {
    assert Takes(sc(from));
  }

  /** With no fault and nobody else acting, Assign with a free candidate and then Unassign both succeed:
      the free set is exactly what it was and the instance ends with an ephemeral address. */
  lemma RoundTripRestores(s: St, me: string, sc: Script)
    requires Ready(s, me) && Alone(sc) && FaultFree(sc) && s.c.instances[me].hasNic && !AccessOf(s, me).Static?
    requires |Listing(s, me, sc)| > 0
    ensures var (s1, r) := Assign(s, me, sc);
      var (t, ok) := Unassign(s1, me, sc);
      r.Success? && ok && FreePool(t.c) == FreePool(s.c) && me in t.c.instances && AccessOf(t, me).Ephemeral?
  {
    hide Assign, Unassign, WellFormed, FreePool, Misled, Takes, Listing;
    assert OthersRelease(sc);
    LockedAssign(s, me, sc);
    AssignOutcome(s, me, sc);
    FaultFreeUnassign(Assign(s, me, sc).0, me, sc);
    AssignUnassignRestores(s, me, sc);
  }
}
