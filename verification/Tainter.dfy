/** Removal of a taint key, internal/node/tainter.go: the loop over the taints and the JSON merge patch
    that is sent to the API server. */
module Tainter {
  import opened Wrappers
  import opened Lists

  datatype Taint = Taint(key: string, value: string, effect: string, timeAdded: Option<string>)

  // ----- deleteTaintsByKey -----

  function OtherKey(key: string): Taint -> bool {
    (t: Taint) => t.key != key
  }

  ghost predicate HasKey(taints: seq<Taint>, key: string) {
    exists i :: 0 <= i < |taints| && taints[i].key == key
  }

  /** What stays is every taint without the key, in order; something was deleted iff some taint has it. */
  method DeleteTaintsByKey(taints: seq<Taint>, key: string) returns (newTaints: seq<Taint>, didDelete: bool)
    ensures newTaints == Filtered(OtherKey(key), taints)
    ensures didDelete <==> HasKey(taints, key)
  {
    newTaints, didDelete := [], false;
    for i := 0 to |taints|
      invariant newTaints == Filtered(OtherKey(key), taints[..i])
      invariant didDelete <==> HasKey(taints[..i], key)
    {
      FilteredSnoc(OtherKey(key), taints, i);
      assert taints[..i + 1] == taints[..i] + [taints[i]];
      assert HasKey(taints[..i], key) ==> HasKey(taints[..i + 1], key);
      if taints[i].key == key {
        assert taints[..i + 1][i].key == key;
        didDelete := true;
      } else {
        newTaints := newTaints + [taints[i]];
      }
    }
    assert taints[..|taints|] == taints;
  }

  lemma {:induction false} NothingDropped(taints: seq<Taint>, key: string)
    ensures Filtered(OtherKey(key), taints) == taints <==> !HasKey(taints, key)
    ensures |Filtered(OtherKey(key), taints)| <= |taints|
  {
    if |taints| > 0 {
      var n := |taints| - 1;
      NothingDropped(taints[..n], key);
      assert taints == taints[..n] + [taints[n]];
      if HasKey(taints[..n], key) {
        var i :| 0 <= i < n && taints[..n][i].key == key;
        assert taints[i].key == key;
      }
    }
  }

  // ----- JSON and merge patch -----

  datatype Json =
    | Null | Str(text: string) | Num(number: int) | Bool(value: bool)
    | Arr(items: seq<Json>) | Obj(members: map<string, Json>)

  /** Section 2 of RFC 7396. */
  function MergePatch(target: Json, patch: Json): Json
    decreases patch
  {
    if !patch.Obj? then patch
    else
      var base := if target.Obj? then target.members else map[];
      Obj(map name | name in base.Keys + patch.members.Keys && !(name in patch.members && patch.members[name].Null?) ::
            if name in patch.members
            then MergePatch(if name in base then base[name] else Null, patch.members[name])
            else base[name])
  }

  /** A taint as the API writes it: empty value and missing time are left out. */
  function TaintJson(t: Taint): Json {
    Obj(map["key" := Str(t.key), "effect" := Str(t.effect)]
        + (if t.value == "" then map[] else map["value" := Str(t.value)])
        + (if t.timeAdded.None? then map[] else map["timeAdded" := Str(t.timeAdded.value)]))
  }

  function Marshal(taints: seq<Taint>): Json {
    Arr(seq(|taints|, i requires 0 <= i < |taints| => TaintJson(taints[i])))
  }

  function TextOf(j: Json, name: string): string {
    if j.Obj? && name in j.members && j.members[name].Str? then j.members[name].text else ""
  }

  function ReadTaint(j: Json): Taint {
    Taint(TextOf(j, "key"), TextOf(j, "value"), TextOf(j, "effect"),
          if j.Obj? && "timeAdded" in j.members then Some(TextOf(j, "timeAdded")) else None)
  }

  function Unmarshal(j: Json): seq<Taint> {
    if j.Arr? then seq(|j.items|, i requires 0 <= i < |j.items| => ReadTaint(j.items[i])) else []
  }

  lemma UnmarshalOfMarshal(taints: seq<Taint>)
    ensures Unmarshal(Marshal(taints)) == taints
  {
    forall i | 0 <= i < |taints| ensures ReadTaint(TaintJson(taints[i])) == taints[i] {
    }
  }

  /** A stored node; without taints the member may be missing. */
  predicate IsNode(node: Json) {
    node.Obj? && "spec" in node.members && node.members["spec"].Obj?
  }

  function TaintsOf(node: Json): seq<Taint>
    requires IsNode(node)
  {
    var spec := node.members["spec"];
    if "taints" in spec.members then Unmarshal(spec.members["taints"]) else []
  }

  function WithTaints(node: Json, taints: Json): Json
    requires IsNode(node)
  {
    Obj(node.members["spec" := Obj(node.members["spec"].members["taints" := taints])])
  }

  /** {"spec":{"taints":[...]}} */
  function PatchFor(taints: seq<Taint>): Json {
    Obj(map["spec" := Obj(map["taints" := Marshal(taints)])])
  }

  /** Applying the document changes spec.taints, to an array even when empty, and nothing else. */
  lemma {:induction false} PatchSetsTaints(node: Json, taints: seq<Taint>)
    requires IsNode(node)
    ensures MergePatch(node, PatchFor(taints)) == WithTaints(node, Marshal(taints))
    ensures TaintsOf(WithTaints(node, Marshal(taints))) == taints
  {
    UnmarshalOfMarshal(taints);
    var spec := node.members["spec"];
    var inner := PatchFor(taints).members["spec"];
    assert MergePatch(spec, inner).members == spec.members["taints" := Marshal(taints)] by {
      assert inner.members["taints"] == Marshal(taints);
    }
    assert MergePatch(node, PatchFor(taints)).members == node.members["spec" := MergePatch(spec, inner)];
  }

  /** The patch computed from `seen` and applied to `node`: it removes exactly the taints with the key
      if and only if the node's other taints are those that were seen. */
  lemma {:induction false} PatchRemovesExactly(seen: Json, node: Json, key: string)
    requires IsNode(seen) && IsNode(node)
    ensures var patched := MergePatch(node, PatchFor(Filtered(OtherKey(key), TaintsOf(seen))));
      && IsNode(patched) && !HasKey(TaintsOf(patched), key)
      && (TaintsOf(patched) == Filtered(OtherKey(key), TaintsOf(node))
          <==> Filtered(OtherKey(key), TaintsOf(seen)) == Filtered(OtherKey(key), TaintsOf(node)))
  {
    var kept := Filtered(OtherKey(key), TaintsOf(seen));
    PatchSetsTaints(node, kept);
    if HasKey(kept, key) {
      var i :| 0 <= i < |kept| && kept[i].key == key;
      FilteredMember(OtherKey(key), TaintsOf(seen), kept[i]);
    }
  }

  // ----- RemoveTaintKey -----

  /** The stored node and how many patches were sent. */
  class ApiServer {
    var node: Json
    var patches: nat

    constructor (node: Json)
      requires IsNode(node)
      ensures this.node == node && patches == 0
    {
      this.node, this.patches := node, 0;
    }

    method Patch(patch: Json)
      modifies this
      ensures node == MergePatch(old(node), patch) && patches == old(patches) + 1
    {
      node, patches := MergePatch(node, patch), patches + 1;
    }
  }

  datatype Failed = GetFailed | PatchFailed

  /** `getOk` and `patchOk` decide the two calls; `meanwhile` is what others turn the node into between
      them, if anything. No patch is sent when the key is absent. */
  method RemoveTaintKey(server: ApiServer, key: string, getOk: bool, patchOk: bool, meanwhile: Option<Json>)
      returns (r: Result<bool, Failed>)
    requires IsNode(server.node) && (meanwhile.Some? ==> IsNode(meanwhile.value))
    modifies server
    ensures r == if !getOk then Failure(GetFailed)
                 else if !HasKey(TaintsOf(old(server.node)), key) then Success(false)
                 else if patchOk then Success(true) else Failure(PatchFailed)
    ensures server.patches == old(server.patches) + (if r == Success(true) then 1 else 0)
    ensures var before := if meanwhile.Some? && getOk then meanwhile.value else old(server.node);
      server.node == if r == Success(true)
                     then WithTaints(before, Marshal(Filtered(OtherKey(key), TaintsOf(old(server.node)))))
                     else before
  {
    if !getOk {
      return Failure(GetFailed);
    }
    var taints := TaintsOf(server.node);
    var newTaints, didDelete := DeleteTaintsByKey(taints, key);
    if meanwhile.Some? {
      server.node := meanwhile.value;
    }
    if !didDelete {
      return Success(false);
    }
    if !patchOk {
      return Failure(PatchFailed);
    }
    PatchSetsTaints(server.node, newTaints);
    server.Patch(PatchFor(newTaints));
    return Success(true);
  }
}
