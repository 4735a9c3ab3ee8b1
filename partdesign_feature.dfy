/**
  PartDesign::Feature: the recompute predicate and the checks a PartDesign
  feature makes on its base feature, its result shape and its body.

  Shapes are seen only as "null or not" and their number of solids. Objects
  of the document are values with their kind; a Body also holds the ids of
  its members and its `SingleSolid` flag. The class hierarchy is taken from
  FreeCAD's headers, which are not part of this model: ShapeBinder,
  SubShapeBinder and Body all derive from Part::Feature.
*/
module PartDesignFeature {
  import opened Wrappers
  import opened PropertyStatus
  import Properties

  datatype Shape = Shape(isNull: bool, solids: nat)

  /** The shape of a default-constructed `TopoShape`. */
  const NullShape: Shape := Shape(true, 0)

  datatype Kind = PlainObject | PartFeature | ShapeBinder | SubShapeBinder | Body

  datatype Obj = Obj(id: nat, kind: Kind, shape: Shape, singleSolid: bool, members: set<nat>)

  /** `isDerivedFrom(Part::Feature::getClassTypeId())` */
  predicate IsPartFeature(o: Obj) {
    o.kind != PlainObject
  }

  /** The exception types the feature throws, with their messages. */
  datatype Error =
    | StandardFailure(msg: string)
    | RuntimeError(msg: string)
    | ValueError(msg: string)
    | NullShapeException(msg: string)

  /**
    What the feature's members read: its own id, the `BaseFeature` link and
    whether it is touched, the `_Body` link, the objects linking to it
    (`getInList()`), and `Part::Feature::mustExecute()`.
  */
  datatype Feature = Feature(
    self: nat,
    baseFeature: Option<Obj>,
    baseFeatureTouched: bool,
    bodyLink: Option<Obj>,
    inList: seq<Obj>,
    partMustExecute: int)

  /** `mustExecute()`: 1 when `BaseFeature` is touched, else what Part::Feature says. */
  function MustExecute(f: Feature): (r: int)
    ensures f.baseFeatureTouched ==> r == 1
    ensures !f.baseFeatureTouched ==> r == f.partMustExecute
  {
    if f.baseFeatureTouched then 1 else f.partMustExecute
  }

  /** The feature must be recomputed exactly when its base is touched or Part::Feature asks for it. */
  lemma MustExecuteIff(f: Feature)
    ensures MustExecute(f) != 0 <==> f.baseFeatureTouched || f.partMustExecute != 0
  {
  }

  /** An object of the in-list that is a Body and has this feature as a member. */
  predicate OwningBody(o: Obj, self: nat) {
    o.kind == Body && self in o.members
  }

  /** The index of the first owning body in `list`. */
  function FindBody(list: seq<Obj>, self: nat): (r: Option<nat>)
    ensures r.Some? ==> r.value < |list| && OwningBody(list[r.value], self)
    ensures r.Some? ==> forall j :: 0 <= j < r.value ==> !OwningBody(list[j], self)
    ensures r.None? ==> forall j :: 0 <= j < |list| ==> !OwningBody(list[j], self)
    decreases |list|
  {
    if |list| == 0 then None
    else if OwningBody(list[0], self) then Some(0)
    else
      match FindBody(list[1..], self)
      case None => None
      case Some(k) => Some(k + 1)
  }

  /**
    `getFeatureBody()`: the `_Body` link when it is a Body, otherwise the
    first object of the in-list that is a Body containing this feature.
  */
  function FeatureBody(f: Feature): (r: Option<Obj>)
    ensures f.bodyLink.Some? && f.bodyLink.value.kind == Body ==> r == f.bodyLink
    ensures r.Some? ==> r.value.kind == Body
  {
    if f.bodyLink.Some? && f.bodyLink.value.kind == Body then f.bodyLink
    else
      match FindBody(f.inList, f.self)
      case None => None
      case Some(k) => Some(f.inList[k])
  }

  /** Without a Body link, the body found is the first owning body of the in-list, and none means none owns it. */
  lemma FeatureBodySearch(f: Feature)
    requires f.bodyLink.None? || f.bodyLink.value.kind != Body
    ensures FeatureBody(f).Some? ==>
              exists k :: 0 <= k < |f.inList| && FeatureBody(f) == Some(f.inList[k]) &&
                          OwningBody(f.inList[k], f.self) &&
                          forall j :: 0 <= j < k ==> !OwningBody(f.inList[j], f.self)
    ensures FeatureBody(f).None? <==> forall j :: 0 <= j < |f.inList| ==> !OwningBody(f.inList[j], f.self)
  {
    match FindBody(f.inList, f.self)
    case None =>
    case Some(k) =>
      assert OwningBody(f.inList[k], f.self);
  }

  /** `allowMultiSolid()`: there is a body and its `SingleSolid` is false. */
  function AllowMultiSolid(f: Feature): (r: bool)
    ensures r <==> FeatureBody(f).Some? && !FeatureBody(f).value.singleSolid
  {
    var body := FeatureBody(f);
    body.Some? && !body.value.singleSolid
  }

  /** The message `getSolid` throws for several solids in a single-solid body. */
  const MultipleSolidsMessage: string :=
    "Result has multiple solids.\n" + "To allow multiple solids, " +
    "please set 'SingleSolid' " + "property of the body to false"

  /** `getSolid(shape)`, with `allowMultiSolid()` as `multi`. */
  function GetSolid(shape: Shape, multi: bool): (r: Result<Shape, Error>)
    ensures shape.isNull ==> r.Failure? && r.error.StandardFailure?
    ensures !shape.isNull && shape.solids > 1 ==> (r.Success? <==> multi)
    ensures !shape.isNull && shape.solids > 1 && multi ==> r == Success(shape)
    ensures !shape.isNull && shape.solids > 1 && !multi ==> r.Failure? && r.error.RuntimeError?
    ensures !shape.isNull && shape.solids == 1 ==> r == Success(Shape(false, 1))
    ensures !shape.isNull && shape.solids == 0 ==> r == Success(NullShape)
  {
    if shape.isNull then Failure(StandardFailure("Shape is null"))
    else if shape.solids > 1 then
      if multi then Success(shape)
      else Failure(RuntimeError(MultipleSolidsMessage))
    else if shape.solids > 0 then Success(Shape(false, 1))
    else Success(NullShape)
  }

  /** A successful `getSolid` is null only for a shape without solids, and holds one solid unless multi-solid is allowed. */
  lemma GetSolidResult(shape: Shape, multi: bool)
    requires GetSolid(shape, multi).Success?
    ensures var s := GetSolid(shape, multi).value;
            (s.isNull <==> shape.solids == 0) && (s.solids <= 1 || multi) && s.solids <= shape.solids
  {
  }

  /**
    `getBaseObject(silent)`: the base when it is a Part::Feature; otherwise
    "Base property not set" (no link) or "No base feature linked" (a link of
    another kind), thrown unless `silent`, in which case null is returned.
  */
  function BaseObject(f: Feature, silent: bool): (r: Result<Option<Obj>, Error>)
    ensures r.Success? && r.value.Some? <==> f.baseFeature.Some? && IsPartFeature(f.baseFeature.value)
    ensures r.Success? && r.value.Some? ==> r.value == f.baseFeature
    ensures r.Failure? <==> !silent && (f.baseFeature.None? || !IsPartFeature(f.baseFeature.value))
    ensures r.Failure? && f.baseFeature.None? ==> r.error == RuntimeError("Base property not set")
    ensures r.Failure? && f.baseFeature.Some? ==> r.error == RuntimeError("No base feature linked")
  {
    var err: Option<string> :=
      if f.baseFeature.Some? then
        if IsPartFeature(f.baseFeature.value) then None else Some("No base feature linked")
      else Some("Base property not set");
    if !silent && err.Some? then Failure(RuntimeError(err.value))
    else if err.None? then Success(f.baseFeature)
    else Success(None)
  }

  /** In silent mode `getBaseObject` never throws. */
  lemma BaseObjectSilent(f: Feature)
    ensures BaseObject(f, true).Success?
    ensures BaseObject(f, true).value.None? <==> BaseObject(f, false).Failure?
  {
  }

  /**
    `getBaseShape()`: the base object (throwing as `getBaseObject()` does),
    then in this order: a shape binder is refused, a null shape is refused,
    a shape without solids is refused.
  */
  function BaseShape(f: Feature): (r: Result<Shape, Error>)
    ensures r.Success? ==> f.baseFeature.Some? && IsPartFeature(f.baseFeature.value) &&
                           r.value == f.baseFeature.value.shape &&
                           !r.value.isNull && r.value.solids > 0
  {
    match BaseObject(f, false)
    case Failure(e) => Failure(e)
    case Success(base) =>
      var b := base.value;
      if b.kind == ShapeBinder || b.kind == SubShapeBinder then
        Failure(ValueError("Base shape of shape binder cannot be used"))
      else if b.shape.isNull then Failure(NullShapeException("Base feature's shape is invalid"))
      else if b.shape.solids == 0 then Failure(ValueError("Base feature's shape is not a solid"))
      else Success(b.shape)
  }

  /** For a valid link, the first check that fails decides the error `getBaseShape` reports; when none fails, the base's shape is returned. */
  lemma BaseShapeOrder(f: Feature, b: Obj)
    requires f.baseFeature == Some(b) && IsPartFeature(b)
    ensures b.kind == ShapeBinder || b.kind == SubShapeBinder ==>
              BaseShape(f) == Failure(ValueError("Base shape of shape binder cannot be used"))
    ensures b.kind != ShapeBinder && b.kind != SubShapeBinder && b.shape.isNull ==>
              BaseShape(f) == Failure(NullShapeException("Base feature's shape is invalid"))
    ensures b.kind != ShapeBinder && b.kind != SubShapeBinder && !b.shape.isNull && b.shape.solids == 0 ==>
              BaseShape(f) == Failure(ValueError("Base feature's shape is not a solid"))
    ensures b.kind != ShapeBinder && b.kind != SubShapeBinder && !b.shape.isNull && b.shape.solids > 0 ==>
              BaseShape(f) == Success(b.shape)
  {
  }

  /** The PropertyType of `_Body`: read-only, hidden, output and transient. */
  const BodyLinkType: set<TypeFlag> := {TypeReadOnly, TypeHidden, TypeOutput, TypeTransient}

  /**
    The constructor's effect on the status of the properties it adds or
    changes: `BaseFeature` and `Placement` become Hidden, each reporting
    the change to its container as `setStatus` does, and `_Body` takes the
    mirror bits of its PropertyType (as adding a property with a type
    does: PropertyContainer.cpp is not part of this model). Names,
    containers and `_Body`'s notices stay as they were.
  */
  method Construct(baseFeature: Properties.Property, bodyLink: Properties.Property, placement: Properties.Property)
    requires baseFeature != bodyLink && bodyLink != placement && baseFeature != placement
    modifies baseFeature`status, baseFeature`notices, placement`status, placement`notices, bodyLink`status
    ensures baseFeature.status == SetBit(old(baseFeature.status), Hidden, true)
    ensures baseFeature.notices == old(baseFeature.notices) +
              (if baseFeature.father.Some? && SignalChanged(old(baseFeature.status), baseFeature.status)
               then [Properties.StatusChanged(old(baseFeature.status))] else [])
    ensures placement.status == SetBit(old(placement.status), Hidden, true)
    ensures placement.notices == old(placement.notices) +
              (if placement.father.Some? && SignalChanged(old(placement.status), placement.status)
               then [Properties.StatusChanged(old(placement.status))] else [])
    ensures bodyLink.status == PropertyStatus.SyncType(old(bodyLink.status), BodyLinkType)
    ensures GetType(bodyLink.status) == GetType(old(bodyLink.status)) + BodyLinkType
  {
    bodyLink.SyncType(BodyLinkType);
    GetTypeAfterSyncType(old(bodyLink.status), BodyLinkType);
    placement.SetStatus(Hidden, true);
    baseFeature.SetStatus(Hidden, true);
  }
}
