/**
  Gui::ViewProviderGeoFeatureGroupExtension: which members of a
  GeoFeatureGroup the tree claims as the group's own children.

  Document objects are ids; a group entry is `None` for a null pointer. What
  the code asks of other objects is gathered in a `Scene`: which objects
  belong to a document, which carry a GeoFeatureGroupExtension, and the view
  provider of each object that has one, with the children that view
  provider claims after `filterLinksByScope` (both are calls into code that
  is not part of this model, so their results are given).
*/
module GeoFeatureGroupViews {
  import opened Wrappers

  type ObjRef = Option<nat>

  /** A view provider: its identity and its claimed children, already filtered by scope. */
  datatype ViewProviderInfo = ViewProviderInfo(id: nat, scopedClaims: seq<nat>)

  datatype Scene = Scene(
    inDocument: set<nat>,
    geoGroups: set<nat>,
    viewProviders: map<nat, ViewProviderInfo>,
    self: nat)

  /**
    A member whose claims count: not null, not itself a geo-feature group,
    with a view provider that is not this one.
  */
  predicate Contributes(s: Scene, o: ObjRef) {
    o.Some? && o.value !in s.geoGroups && o.value in s.viewProviders &&
    s.viewProviders[o.value].id != s.self
  }

  /** What one member adds to `outSet`. */
  function Contribution(s: Scene, o: ObjRef): set<nat> {
    if Contributes(s, o) then set x | x in s.viewProviders[o.value].scopedClaims else {}
  }

  /** `outSet` after the first loop has visited `model`. */
  function ClaimsOf(s: Scene, model: seq<ObjRef>): set<nat>
    decreases |model|
  {
    if |model| == 0 then {} else ClaimsOf(s, model[..|model| - 1]) + Contribution(s, model[|model| - 1])
  }

  /** An entry the erase loop keeps. */
  predicate Kept(s: Scene, outSet: set<nat>, o: ObjRef) {
    o.Some? && o.value in s.inDocument && o.value !in outSet
  }

  /** The entries of `model` the erase loop keeps, in their order. */
  function Filter(s: Scene, outSet: set<nat>, model: seq<ObjRef>): seq<ObjRef>
    decreases |model|
  {
    if |model| == 0 then []
    else (if Kept(s, outSet, model[0]) then [model[0]] else []) + Filter(s, outSet, model[1..])
  }

  /** The list `buildClaimedChildren` computes for the group list `group`. */
  function Claimed(s: Scene, group: seq<ObjRef>): seq<ObjRef> {
    Filter(s, ClaimsOf(s, group), group)
  }

  /** `a` is `b` with some entries left out. */
  predicate Subsequence<T(==)>(a: seq<T>, b: seq<T>)
    decreases |b|
  {
    if |a| == 0 then true
    else if |b| == 0 then false
    else if a[0] == b[0] then Subsequence(a[1..], b[1..])
    else Subsequence(a, b[1..])
  }

  /** An id is claimed by some member exactly when a contributing member's view provider claims it. */
  lemma {:induction false} ClaimsOfMembers(s: Scene, model: seq<ObjRef>, x: nat)
    ensures x in ClaimsOf(s, model) <==>
              exists i :: 0 <= i < |model| && Contributes(s, model[i]) &&
                          x in s.viewProviders[model[i].value].scopedClaims
    decreases |model|
  {
    if |model| > 0 {
      var init := model[..|model| - 1];
      ClaimsOfMembers(s, init, x);
      if x in ClaimsOf(s, model) && x !in ClaimsOf(s, init) {
        var j := |model| - 1;
        assert Contributes(s, model[j]) && x in s.viewProviders[model[j].value].scopedClaims;
      }
      if x in ClaimsOf(s, init) {
        var i :| 0 <= i < |init| && Contributes(s, init[i]) &&
                 x in s.viewProviders[init[i].value].scopedClaims;
        assert model[i] == init[i];
      }
      if exists i :: 0 <= i < |model| && Contributes(s, model[i]) &&
                    x in s.viewProviders[model[i].value].scopedClaims {
        var i :| 0 <= i < |model| && Contributes(s, model[i]) &&
                 x in s.viewProviders[model[i].value].scopedClaims;
        if i < |init| {
          assert init[i] == model[i];
        }
      }
    }
  }

  /** Members that are geo-feature groups, have no view provider, or have this one add no claims. */
  lemma {:induction false} SilentMemberIgnored(s: Scene, model: seq<ObjRef>, o: ObjRef)
    requires !Contributes(s, o)
    ensures ClaimsOf(s, model + [o]) == ClaimsOf(s, model)
  {
    assert (model + [o])[..|model|] == model;
  }

  /** The filter keeps exactly the kept entries, each as often as it occurs. */
  lemma {:induction false} FilterCounts(s: Scene, outSet: set<nat>, model: seq<ObjRef>, o: ObjRef)
    ensures multiset(Filter(s, outSet, model))[o] == if Kept(s, outSet, o) then multiset(model)[o] else 0
    decreases |model|
  {
    if |model| > 0 {
      FilterCounts(s, outSet, model[1..], o);
      assert model == [model[0]] + model[1..];
    }
  }

  /** The filter keeps the order of what it keeps. */
  lemma {:induction false} FilterSubsequence(s: Scene, outSet: set<nat>, model: seq<ObjRef>)
    ensures Subsequence(Filter(s, outSet, model), model)
    decreases |model|
  {
    if |model| > 0 {
      var rest := Filter(s, outSet, model[1..]);
      FilterSubsequence(s, outSet, model[1..]);
      if !Kept(s, outSet, model[0]) {
        assert Filter(s, outSet, model) == rest;
        SubsequenceSkip(rest, model[0], model[1..]);
        assert [model[0]] + model[1..] == model;
      } else {
        assert Filter(s, outSet, model) == [model[0]] + rest;
      }
    }
  }

  /** A subsequence of a list is a subsequence of that list with one more entry in front. */
  lemma {:induction false} SubsequenceSkip<T>(a: seq<T>, x: T, b: seq<T>)
    requires Subsequence(a, b)
    ensures Subsequence(a, [x] + b)
    decreases |b|, 1
  {
    var xb := [x] + b;
    assert xb[1..] == b;
    if |a| > 0 && a[0] == x {
      SubsequenceDropHead(a, b);
    }
  }

  /** Leaving out the first entry of a subsequence leaves a subsequence. */
  lemma {:induction false} SubsequenceDropHead<T>(a: seq<T>, b: seq<T>)
    requires |a| > 0 && Subsequence(a, b)
    ensures Subsequence(a[1..], b)
    decreases |b|, 0
  {
    if a[0] == b[0] {
      SubsequenceSkip(a[1..], b[0], b[1..]);
    } else {
      SubsequenceDropHead(a, b[1..]);
      SubsequenceSkip(a[1..], b[0], b[1..]);
    }
    assert [b[0]] + b[1..] == b;
  }

  /** Filtering what was already filtered changes nothing. */
  lemma {:induction false} FilterIdempotent(s: Scene, outSet: set<nat>, model: seq<ObjRef>)
    ensures Filter(s, outSet, Filter(s, outSet, model)) == Filter(s, outSet, model)
    decreases |model|
  {
    if |model| > 0 {
      FilterIdempotent(s, outSet, model[1..]);
      var rest := Filter(s, outSet, model[1..]);
      if Kept(s, outSet, model[0]) {
        var f := [model[0]] + rest;
        assert f[0] == model[0] && f[1..] == rest;
        assert Filter(s, outSet, model) == f;
        assert Filter(s, outSet, f) == [f[0]] + Filter(s, outSet, f[1..]);
      } else {
        assert Filter(s, outSet, model) == rest;
      }
    }
  }

  /**
    The claimed list is the group list without the null entries, the ones
    outside a document and the ones some member's view provider claims:
    each remaining entry as often as in the group and in the group's order.
  */
  lemma ClaimedSpec(s: Scene, group: seq<ObjRef>, o: ObjRef)
    ensures Subsequence(Claimed(s, group), group)
    ensures o in Claimed(s, group) <==>
              o in group && Kept(s, ClaimsOf(s, group), o)
    ensures multiset(Claimed(s, group))[o] ==
              if Kept(s, ClaimsOf(s, group), o) then multiset(group)[o] else 0
  {
    FilterSubsequence(s, ClaimsOf(s, group), group);
    FilterCounts(s, ClaimsOf(s, group), group, o);
  }

  /** `extensionGetDisplayModes`: the parent's modes, then "Group". */
  function DisplayModes(parentModes: seq<string>): (r: seq<string>)
    ensures |r| == |parentModes| + 1 && r[..|parentModes|] == parentModes && r[|parentModes|] == "Group"
  {
    parentModes + ["Group"]
  }

  /**
    The view provider of an object with (or without) a
    GeoFeatureGroupExtension: the extension's `Group` and
    `_ClaimedChildren` values, and how often `_ClaimedChildren` was set.
  */
  class GeoFeatureGroupView {
    const scene: Scene
    const hasGroupExtension: bool
    var group: seq<ObjRef>
    var claimedChildren: seq<ObjRef>
    var claimedWrites: nat

    constructor (scene: Scene, hasGroupExtension: bool, group: seq<ObjRef>)
      ensures this.scene == scene && this.hasGroupExtension == hasGroupExtension
      ensures this.group == group && claimedChildren == [] && claimedWrites == 0
    {
      this.scene := scene;
      this.hasGroupExtension := hasGroupExtension;
      this.group := group;
      claimedChildren := [];
      claimedWrites := 0;
    }

    /**
      `extensionClaimChildren3D`: every member of Group, in order, after the
      children already there; nothing is added without the extension.
    */
    function ClaimChildren3D(children: seq<ObjRef>): (r: seq<ObjRef>)
      reads this
      ensures |r| == |children| + (if hasGroupExtension then |group| else 0)
      ensures r[..|children|] == children
      ensures hasGroupExtension ==> r[|children|..] == group
      ensures !hasGroupExtension ==> r == children
    {
      if hasGroupExtension then children + group else children
    }

    /**
      `buildClaimedChildren`: without the extension nothing happens;
      otherwise `_ClaimedChildren` becomes the claimed list, and is set only
      when that differs from its current value.
    */
    method BuildClaimedChildren()
      modifies this`claimedChildren, this`claimedWrites
      ensures !hasGroupExtension ==> claimedChildren == old(claimedChildren) && claimedWrites == old(claimedWrites)
      ensures hasGroupExtension ==> claimedChildren == Claimed(scene, group)
      ensures hasGroupExtension ==>
                claimedWrites == old(claimedWrites) + if Claimed(scene, group) == old(claimedChildren) then 0 else 1
    {
      if !hasGroupExtension {
        return;
      }
      var model := group;
      var outSet := CollectClaims(scene, model);
      model := EraseHandled(scene, outSet, model);
      if model != claimedChildren {
        claimedChildren := model;
        claimedWrites := claimedWrites + 1;
      }
    }

    /**
      `extensionClaimChildren`: rebuilds the claimed list, then appends it
      to `children`. The source dereferences the extension without a check.
    */
    method ClaimChildren(children: seq<ObjRef>) returns (r: seq<ObjRef>)
      requires hasGroupExtension
      modifies this`claimedChildren, this`claimedWrites
      ensures claimedChildren == Claimed(scene, group)
      ensures claimedWrites == old(claimedWrites) + if Claimed(scene, group) == old(claimedChildren) then 0 else 1
      ensures r == children + Claimed(scene, group)
    {
      BuildClaimedChildren();
      r := children + claimedChildren;
    }
  }

  /** The first loop of `buildClaimedChildren`: the ids the members' view providers claim. */
  method CollectClaims(s: Scene, model: seq<ObjRef>) returns (outSet: set<nat>)
    ensures outSet == ClaimsOf(s, model)
  {
    outSet := {};
    var i := 0;
    while i < |model|
      invariant 0 <= i <= |model|
      invariant outSet == ClaimsOf(s, model[..i])
    {
      var obj := model[i];
      assert model[..i + 1][..i] == model[..i];
      if obj.None? || obj.value in s.geoGroups {
        i := i + 1;
        continue;
      }
      if obj.value !in s.viewProviders || s.viewProviders[obj.value].id == s.self {
        i := i + 1;
        continue;
      }
      var children := s.viewProviders[obj.value].scopedClaims;
      outSet := outSet + set x | x in children;
      i := i + 1;
    }
    assert model[..i] == model;
  }

  /** The erase loop of `buildClaimedChildren`, erasing in place and stepping only past kept entries. */
  method EraseHandled(s: Scene, outSet: set<nat>, model0: seq<ObjRef>) returns (model: seq<ObjRef>)
    ensures model == Filter(s, outSet, model0)
  {
    model := model0;
    var it := 0;
    while it < |model|
      invariant 0 <= it <= |model|
      invariant Filter(s, outSet, model0) == model[..it] + Filter(s, outSet, model[it..])
      decreases |model| - it
    {
      var obj := model[it];
      var tail := model[it..];
      assert tail[0] == obj && tail[1..] == model[it + 1..];
      if obj.None? || obj.value !in s.inDocument || obj.value in outSet {
        var erased := model[..it] + model[it + 1..];
        assert erased[..it] == model[..it] && erased[it..] == model[it + 1..];
        model := erased;
      } else {
        assert model[..it + 1] == model[..it] + [obj];
        it := it + 1;
      }
    }
    assert model[..it] == model;
  }
}
