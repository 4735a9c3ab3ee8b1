/**
  The status word of an App::Property. `StatusBits` is a `std::bitset<32>`,
  modelled as the set of its positions that are set; the `unsigned long`
  handed to `setStatusValue` is the set of its one bits (positions below 64).
  The module gives the merge `setStatusValue` performs, the container signal
  it decides on, and the translation between the `Prop*` status bits and the
  container's `PropertyType` flags (`getType` / `syncType`).

  Bit positions and flag values are those of FreeCAD's Property.h and
  PropertyContainer.h of the same release; neither header is part of this
  model.
*/
module PropertyStatus {

  /** A position in the 32-bit `StatusBits` set. */
  type Position = n: nat | n < 32

  /** A position in an `unsigned long`. */
  type WordPosition = n: nat | n < 64

  type StatusBits = set<Position>

  type StatusWord = set<WordPosition>

  // Property::Status positions used by the core
  const Touched: Position := 0
  const Immutable: Position := 1
  const ReadOnly: Position := 2
  const Hidden: Position := 3
  const Transient: Position := 4
  const Output: Position := 7
  const NoRecompute: Position := 11
  // the Prop* positions mirror the PropertyType given when the property was added
  const PropDynamic: Position := 21
  const PropNoPersist: Position := 22
  const PropNoRecompute: Position := 23
  const PropReadOnly: Position := 24
  const PropTransient: Position := 25
  const PropHidden: Position := 26
  const PropOutput: Position := 27

  /** The positions in the `mask` of setStatusValue (PropNoPersist is not among them). */
  const Protected: set<Position> :=
    {PropDynamic, PropNoRecompute, PropReadOnly, PropTransient, PropOutput, PropHidden}

  /** The positions in `_signalMask`: a change of these is reported to the container. */
  const Signalled: set<Position> := {ReadOnly, Hidden}

  /** App::PropertyType flags; `FlagValue` is each one's value in the C++ enumeration. */
  datatype TypeFlag =
    | TypeReadOnly | TypeTransient | TypeHidden | TypeOutput | TypeNoRecompute | TypeNoPersist
  {
    function FlagValue(): nat {
      match this
      case TypeReadOnly => 1
      case TypeTransient => 2
      case TypeHidden => 4
      case TypeOutput => 8
      case TypeNoRecompute => 16
      case TypeNoPersist => 32
    }

    /** The status position that mirrors this flag. */
    function Mirror(): Position {
      match this
      case TypeReadOnly => PropReadOnly
      case TypeTransient => PropTransient
      case TypeHidden => PropHidden
      case TypeOutput => PropOutput
      case TypeNoRecompute => PropNoRecompute
      case TypeNoPersist => PropNoPersist
    }
  }

  const AllFlags: set<TypeFlag> :=
    {TypeReadOnly, TypeTransient, TypeHidden, TypeOutput, TypeNoRecompute, TypeNoPersist}

  /** The positions that mirror a PropertyType flag. */
  const Mirrors: set<Position> :=
    {PropReadOnly, PropTransient, PropHidden, PropOutput, PropNoRecompute, PropNoPersist}

  /** Constructing a `std::bitset<32>` from an `unsigned long` keeps its low 32 bits. */
  function Low32(w: StatusWord): (r: StatusBits)
    ensures forall p: Position :: p in r <==> p in w
  {
    set p: WordPosition | p in w && p < 32 :: p as Position
  }

  /** `StatusBits.set(pos, on)` */
  function SetBit(s: StatusBits, pos: Position, on: bool): (r: StatusBits)
    ensures pos in r <==> on
    ensures forall q: Position :: q != pos ==> (q in r <==> q in s)
  {
    if on then s + {pos} else s - {pos}
  }

  /**
    The new `StatusBits` of setStatusValue: the protected Prop* bits keep
    their current values, every other bit below 32 is the argument's.
  */
  function MergeStatus(current: StatusBits, requested: StatusWord): (r: StatusBits)
    ensures forall p: Position :: p in r <==> if p in Protected then p in current else p in requested
  {
    (Low32(requested) - Protected) + (current * Protected)
  }

  /** setStatusValue signals the container exactly when ReadOnly or Hidden differs. */
  predicate SignalChanged(oldStatus: StatusBits, newStatus: StatusBits) {
    oldStatus * Signalled != newStatus * Signalled
  }

  lemma SignalChangedIff(oldStatus: StatusBits, newStatus: StatusBits)
    ensures SignalChanged(oldStatus, newStatus) <==>
            (ReadOnly in oldStatus <==> ReadOnly !in newStatus) ||
            (Hidden in oldStatus <==> Hidden !in newStatus)
  {
    if (ReadOnly in oldStatus <==> ReadOnly in newStatus) && (Hidden in oldStatus <==> Hidden in newStatus) {
      assert oldStatus * Signalled == newStatus * Signalled;
    } else {
      assert ReadOnly in oldStatus * Signalled <==> ReadOnly in oldStatus;
      assert Hidden in oldStatus * Signalled <==> Hidden in oldStatus;
    }
  }

  /** `getType`: the PropertyType flags whose mirror bit is set. */
  function GetType(s: StatusBits): (t: set<TypeFlag>)
    ensures forall f: TypeFlag :: f in t <==> f.Mirror() in s
  {
    set f | f in AllFlags && f.Mirror() in s
  }

  /**
    `syncType`: sets the mirror bit of every flag in `typeFlags`; it never
    clears a bit and changes no bit that is not a mirror.
  */
  function SyncType(s: StatusBits, typeFlags: set<TypeFlag>): (r: StatusBits)
    ensures s <= r
    ensures forall p: Position :: p !in Mirrors ==> (p in r <==> p in s)
    ensures forall f: TypeFlag :: f.Mirror() in r <==> f.Mirror() in s || f in typeFlags
  {
    s + set f | f in typeFlags :: f.Mirror()
  }

  /** Reading the type back after syncing adds exactly the synced flags. */
  lemma GetTypeAfterSyncType(s: StatusBits, typeFlags: set<TypeFlag>)
    ensures GetType(SyncType(s, typeFlags)) == GetType(s) + typeFlags
  {
    var r := SyncType(s, typeFlags);
    forall f: TypeFlag
      ensures f in GetType(r) <==> f in GetType(s) + typeFlags
    {
      assert f.Mirror() in r <==> f.Mirror() in s || f in typeFlags;
    }
  }
}
