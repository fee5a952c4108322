/** What any calls of any instances keep of the project: every step is one accepted or refused call that
    changes an instance, in any order and of any number of instances. */
module GcpMoves {
  import opened Wrappers
  import opened GcpLists
  import opened GcpProtocol
  import Counting
  import Runs

  /** What the calls of everybody else leave of a project for `me`. */
  predicate Allowed(c: Cloud, d: Cloud, me: string) {
    && WellFormed(d) && SamePool(c, d) && c.ipv6 == d.ipv6 && c.instances.Keys == d.instances.Keys
    && (me in c.instances ==> d.instances[me] == c.instances[me])
  }

  ghost function FreeOrMine(c: Cloud, me: string): set<nat> {
    set id: nat | id < |c.addresses| && (Free(c, id) || c.addresses[id].users == [me])
  }

  lemma DeletedKeeps(c: Cloud, me: string)
    requires WellFormed(c) && me in c.instances
    ensures WellFormed(Deleted(c, me)) && SamePool(c, Deleted(c, me))
              && Deleted(c, me).instances.Keys == c.instances.Keys
    ensures Deleted(c, me).instances[me].access.Bare? && Deleted(c, me).instances[me].hasNic == c.instances[me].hasNic
    ensures FreeOrMine(Deleted(c, me), me) == FreeOrMine(c, me)
  {
  }

  lemma AddedKeeps(c: Cloud, me: string, snapshot: Instance, address: Option<nat>)
    requires WellFormed(c) && CanAdd(c, me, snapshot, address)
    ensures WellFormed(Added(c, me, address)) && SamePool(c, Added(c, me, address))
              && Added(c, me, address).instances.Keys == c.instances.Keys
    ensures Added(c, me, address).instances[me].access == if address.Some? then Static(address.value) else Ephemeral
    ensures Added(c, me, address).instances[me].hasNic == c.instances[me].hasNic
    ensures FreeOrMine(Added(c, me, address), me) == FreeOrMine(c, me)
  {
  }

  /** What `me`'s own calls do is allowed to every other instance: each agent's guarantee is the others'
      reliance. */
  lemma OwnCallsAllowed(c: Cloud, me: string, b: string, snapshot: Instance, address: Option<nat>)
    requires WellFormed(c) && me in c.instances && b != me
    ensures Allowed(c, Deleted(c, me), b)
    ensures CanAdd(c, me, snapshot, address) ==> Allowed(c, Added(c, me, address), b)
  {
    DeletedKeeps(c, me);
    if CanAdd(c, me, snapshot, address) { AddedKeeps(c, me, snapshot, address); }
  }

  lemma AllowedTrans(c: Cloud, d: Cloud, e: Cloud, me: string)
    requires Allowed(c, d, me) && Allowed(d, e, me)
    ensures Allowed(c, e, me)
  {
    hide WellFormed;
  }

  lemma MoveAllowed(c: Cloud, m: Move, me: string)
    requires WellFormed(c) && m.a != me
    ensures Allowed(c, Make(c, m), me)
  {
    if m.a in c.instances {
      match m
      case Deletes(a, snapshot) => OwnCallsAllowed(c, a, me, snapshot, None);
      case Adds(a, snapshot, address) => OwnCallsAllowed(c, a, me, snapshot, address);
    }
    hide WellFormed, Deleted, Added;
  }

  /** Any sequence of calls of other instances leaves `me`'s instance, its address and the pool alone. */
  lemma {:induction false} OthersAllowed(c: Cloud, ms: seq<Move>, me: string)
    requires WellFormed(c) && forall i :: 0 <= i < |ms| ==> ms[i].a != me
    ensures Allowed(c, Runs.Exec(Make, c, ms), me)
  {
    hide WellFormed, Make;
    if |ms| > 0 {
      var n := |ms| - 1;
      OthersAllowed(c, ms[..n], me);
      var d := Runs.Exec(Make, c, ms[..n]);
      MoveAllowed(d, ms[n], me);
      AllowedTrans(c, d, Make(d, ms[n]), me);
    }
  }

  // ----- Conservation -----

  ghost function FreePool(c: Cloud): set<nat> {
    set id: nat | id < |c.addresses| && Free(c, id)
  }

  ghost function HeldPool(c: Cloud): set<nat> {
    set id: nat | id < |c.addresses| && !Free(c, id)
  }

  ghost predicate SameStatic(c: Cloud, a: string, b: string)
    requires a in c.instances && b in c.instances
  {
    c.instances[a].access.Static? && c.instances[a].access == c.instances[b].access
  }

  lemma MoveKeeps(c: Cloud, m: Move)
    requires WellFormed(c)
    ensures WellFormed(Make(c, m)) && SamePool(c, Make(c, m)) && Make(c, m).instances.Keys == c.instances.Keys
  {
    if m.a in c.instances {
      DeletedKeeps(c, m.a);
      if m.Adds? && CanAdd(c, m.a, m.snapshot, m.address) { AddedKeeps(c, m.a, m.snapshot, m.address); }
    }
    hide WellFormed, Deleted, Added;
  }

  lemma {:induction false} MovesKeep(c: Cloud, ms: seq<Move>)
    requires WellFormed(c)
    ensures var d := Runs.Exec(Make, c, ms); WellFormed(d) && SamePool(c, d) && d.instances.Keys == c.instances.Keys
  {
    hide WellFormed, Make;
    if |ms| > 0 {
      var n := |ms| - 1;
      MovesKeep(c, ms[..n]);
      MoveKeeps(Runs.Exec(Make, c, ms[..n]), ms[n]);
    }
  }

  /** After any interleaving of single calls of any number of instances: the pool keeps its size, free plus
      held is that size, an address has at most one instance, and instances with a static address do not
      outnumber the held ones. */
  lemma {:induction false} Conservation(c: Cloud, ms: seq<Move>, holders: set<string>)
    requires WellFormed(c)
    requires var d := Runs.Exec(Make, c, ms);
      forall b :: b in holders ==> b in d.instances && d.instances[b].access.Static?
    ensures var d := Runs.Exec(Make, c, ms);
      && SamePool(c, d) && |FreePool(d)| + |HeldPool(d)| == |c.addresses| && |holders| <= |HeldPool(d)|
      && forall a, b :: a in d.instances && b in d.instances && SameStatic(d, a, b) ==> a == b
  {
    MovesKeep(c, ms);
    Sizes(Runs.Exec(Make, c, ms), holders);
  }

  lemma Sizes(c: Cloud, holders: set<string>)
    requires WellFormed(c) && forall b :: b in holders ==> b in c.instances && c.instances[b].access.Static?
    ensures |FreePool(c)| + |HeldPool(c)| == |c.addresses| && |holders| <= |HeldPool(c)|
    ensures forall a, b :: a in c.instances && b in c.instances && SameStatic(c, a, b) ==> a == b
  {
    assert FreePool(c) + HeldPool(c) == Counting.Below(|c.addresses|) && FreePool(c) !! HeldPool(c);
    var holder := (id: nat) =>
      if id < |c.addresses| && |c.addresses[id].users| > 0 then c.addresses[id].users[0] else "";
    forall b | b in holders ensures exists id :: id in HeldPool(c) && holder(id) == b {
      assert c.instances[b].access.id in HeldPool(c) && holder(c.instances[b].access.id) == b;
    }
    Counting.ImageSize(holder, HeldPool(c), holders);
    forall a, b | a in c.instances && b in c.instances && SameStatic(c, a, b) ensures a == b {
      assert c.addresses[c.instances[a].access.id].users == [a] == [b];
    }
  }

  // ----- Assign and Unassign are such sequences -----

  /** `d` is `c` after some calls. */
  ghost predicate MovesTo(c: Cloud, d: Cloud) {
    exists ms :: d == Runs.Exec(Make, c, ms)
  }

  lemma Stays(c: Cloud)
    ensures MovesTo(c, c)
  {
    assert Runs.Exec(Make, c, []) == c;
  }

  lemma Then(c: Cloud, d: Cloud, e: Cloud)
    requires MovesTo(c, d) && MovesTo(d, e)
    ensures MovesTo(c, e)
  {
    hide Make;
    var ms :| d == Runs.Exec(Make, c, ms);
    var ns :| e == Runs.Exec(Make, d, ns);
    Runs.ExecAppend(Make, c, ms, ns);
  }

  lemma OneMove(c: Cloud, m: Move)
    ensures MovesTo(c, Make(c, m))
  {
    hide Make;
    assert Runs.Exec(Make, c, []) == c && [m][..0] == [];
    assert Runs.Exec(Make, c, [m]) == Make(c, m);
  }

  lemma BeforeMoves(s: St, me: string, sc: Script)
    ensures MovesTo(s.c, Before(s, me, sc))
  {
  }

  lemma DeleteMoves(s: St, me: string, sc: Script, snapshot: Instance)
    ensures MovesTo(s.c, Delete(s, me, sc, snapshot).0.c)
  {
    Stays(s.c);
    BeforeMoves(s, me, sc);
    var c := Before(s, me, sc);
    OneMove(c, Deletes(me, snapshot));
    Then(s.c, c, Make(c, Deletes(me, snapshot)));
    hide MovesTo, Before, Takes, Reports, Deleted, CanDelete;
  }

  lemma AddMoves(s: St, me: string, sc: Script, snapshot: Instance, address: Option<nat>)
    ensures MovesTo(s.c, Add(s, me, sc, snapshot, address).0.c)
  {
    Stays(s.c);
    BeforeMoves(s, me, sc);
    var c := Before(s, me, sc);
    OneMove(c, Adds(me, snapshot, address));
    Then(s.c, c, Make(c, Adds(me, snapshot, address)));
    hide MovesTo, Before, Takes, Reports, Added, CanAdd;
  }

  lemma {:induction false} TryAllMoves(s: St, me: string, sc: Script, snapshot: Instance, ids: seq<nat>, k: nat)
    requires k <= |ids|
    ensures MovesTo(s.c, TryAll(s, me, sc, snapshot, ids, k).0.c)
    decreases |ids| - k
  {
    hide MovesTo, Before, Add;
    Stays(s.c);
    if k < |ids| && !sc(s.n).cancelled {
      var s1 := GetAddress(s, me, sc, ids[k]).0;
      BeforeMoves(s, me, sc);
      AddMoves(s1, me, sc, snapshot, Some(ids[k]));
      var s2, ok := Try(s, me, sc, snapshot, ids[k]).0, Try(s, me, sc, snapshot, ids[k]).1;
      Then(s.c, s1.c, Add(s1, me, sc, snapshot, Some(ids[k])).0.c);
      if !ok {
        TryAllMoves(s2, me, sc, snapshot, ids, k + 1);
        Then(s.c, s2.c, TryAll(s2, me, sc, snapshot, ids, k + 1).0.c);
      }
    }
  }

  lemma {:induction false} AddEphemeralMoves(s: St, me: string, sc: Script, snapshot: Instance, left: nat)
    ensures MovesTo(s.c, AddEphemeral(s, me, sc, snapshot, left).0.c)
    decreases left
  {
    hide MovesTo, Before, Add;
    Stays(s.c);
    if left > 0 && !sc(s.n).cancelled {
      AddMoves(s, me, sc, snapshot, None);
      var (s1, ok) := Add(s, me, sc, snapshot, None);
      if !ok {
        AddEphemeralMoves(s1, me, sc, snapshot, left - 1);
        Then(s.c, s1.c, AddEphemeral(s1, me, sc, snapshot, left - 1).0.c);
      }
    }
  }

  /** The two reads that Assign and Unassign start with. */
  lemma ReadsMove(s: St, me: string, sc: Script)
    ensures var s1 := GetInstance(s, me, sc).0;
      && MovesTo(s.c, s1.c) && MovesTo(s.c, ListInUse(s1, me, sc).0.c) && MovesTo(s.c, CheckStatic(s, me, sc).0.c)
      && MovesTo(s.c, ListReserved(s, me, sc).0.c)
  {
    BeforeMoves(s, me, sc);
    var s1 := GetInstance(s, me, sc).0;
    BeforeMoves(s1, me, sc);
    Then(s.c, s1.c, ListInUse(s1, me, sc).0.c);
    hide MovesTo, Before, LastNaming;
  }

  lemma RebindMoves(s: St, me: string, sc: Script, instance: Instance, ids: seq<nat>)
    ensures MovesTo(s.c, Rebind(s, me, sc, instance, ids).0.c)
  {
    hide MovesTo, Before, Delete, TryAll;
    DeleteMoves(s, me, sc, instance);
    var s1 := Delete(s, me, sc, instance).0;
    ReadsMove(s1, me, sc);
    var (s2, refreshed) := GetInstance(s1, me, sc);
    Then(s.c, s1.c, s2.c);
    if refreshed.Some? {
      TryAllMoves(s2, me, sc, refreshed.value, ids, 0);
      Then(s.c, s2.c, TryAll(s2, me, sc, refreshed.value, ids, 0).0.c);
    }
  }

  /** Whatever the script, an Assign amounts to a sequence of single calls, its own and those of others. */
  lemma AssignMoves(s: St, me: string, sc: Script)
    ensures MovesTo(s.c, Assign(s, me, sc).0.c)
  {
    hide MovesTo, CheckStatic, ListReserved, Rebind;
    ReadsMove(s, me, sc);
    var (s1, check) := CheckStatic(s, me, sc);
    ReadsMove(s1, me, sc);
    var (s2, ids) := ListReserved(s1, me, sc);
    Then(s.c, s1.c, s2.c);
    if check.Proceed? && ids.Some? {
      RebindMoves(s2, me, sc, check.instance, ids.value);
      Then(s.c, s2.c, Rebind(s2, me, sc, check.instance, ids.value).0.c);
    }
  }

  /** And so does an Unassign. */
  lemma UnassignMoves(s: St, me: string, sc: Script)
    ensures MovesTo(s.c, Unassign(s, me, sc).0.c)
  {
    hide MovesTo, Before, LastNaming, AddEphemeral, Delete;
    ReadsMove(s, me, sc);
    var (s1, instance) := GetInstance(s, me, sc);
    var s2 := ListInUse(s1, me, sc).0;
    if instance.Some? {
      DeleteMoves(s2, me, sc, instance.value);
      var s3 := Delete(s2, me, sc, instance.value).0;
      Then(s.c, s2.c, s3.c);
      ReadsMove(s3, me, sc);
      var (s4, refreshed) := GetInstance(s3, me, sc);
      Then(s.c, s3.c, s4.c);
      if refreshed.Some? {
        AddEphemeralMoves(s4, me, sc, refreshed.value, MAX_RETRIES);
        Then(s.c, s4.c, AddEphemeral(s4, me, sc, refreshed.value, MAX_RETRIES).0.c);
      }
    }
  }
}
