/**
  The list-property layer of Property.cpp: how `PropertyListsBase::_setPyObject`
  turns a scripting value into the (indices, values) pair handed to
  `setPyValues`, and how `PropertyLists` names its XML element and chooses
  between an inline, a side-file and an empty-placeholder form on Save and
  Restore.

  Scripting values are symbolic terms. Only what `_setPyObject` asks of them
  is modelled: is it a dict (and then its items in iteration order), is its
  key an integer, is it a sequence, can an iterator be obtained from it.
*/
module PropertyLists {
  import opened Wrappers
  import opened Properties

  /** A scripting value as `_setPyObject` sees it. */
  datatype PyObject =
    | PyInt(i: int)
    | PyDict(items: seq<(PyObject, PyObject)>)   // items in the dict's iteration order
    | PySequence(elems: seq<PyObject>)           // PySequence_Check holds
    | PyIterable(elems: seq<PyObject>)           // not a sequence, but PyObject_GetIter succeeds
    | PyOpaque(id: nat)                          // anything else

  /** The exceptions `_setPyObject` raises. */
  datatype ListError = TypeError | ValueError

  const LongMin: int := -0x8000_0000_0000_0000
  const LongMax: int := 0x7FFF_FFFF_FFFF_FFFF

  /**
    `PyLong_AsLong` on a 64-bit `long`: an integer outside its range yields -1
    (the pending OverflowError is not inspected by the caller).
  */
  function AsLong(i: int): (r: int)
    ensures LongMin <= r <= LongMax
    ensures LongMin <= i <= LongMax ==> r == i
  {
    if LongMin <= i <= LongMax then i else -1
  }

  /** The (indices, values) pair passed to `setPyValues`. */
  type Patch = (seq<int>, seq<PyObject>)

  /** `r` with `ks` and `vs` put in front of its indices and values. */
  function Prepend(ks: seq<int>, vs: seq<PyObject>, r: Result<Patch, ListError>): Result<Patch, ListError> {
    match r
    case Failure(e) => Failure(e)
    case Success(p) => Success((ks + p.0, vs + p.1))
  }

  /**
    The dict branch of `_setPyObject` as a recursive definition: `listSize` is
    the running size, grown by one for each key that names an append.
  */
  function DictPatch(items: seq<(PyObject, PyObject)>, listSize: nat): Result<Patch, ListError>
    decreases |items|
  {
    if items == [] then Success(([], []))
    else if !items[0].0.PyInt? then Failure(TypeError)
    else
      var idx := AsLong(items[0].0.i);
      if idx < -1 || idx > listSize then Failure(ValueError)
      else if idx == -1 || idx == listSize then
        Prepend([listSize], [items[0].1], DictPatch(items[1..], listSize + 1))
      else
        Prepend([idx], [items[0].1], DictPatch(items[1..], listSize))
  }

  lemma PrependNothing(r: Result<Patch, ListError>)
    ensures Prepend([], [], r) == r
  {
    if r.Success? {
      assert [] + r.value.0 == r.value.0 && [] + r.value.1 == r.value.1;
    }
  }

  lemma PrependPrepend(a: seq<int>, b: seq<PyObject>, c: seq<int>, d: seq<PyObject>, r: Result<Patch, ListError>)
    ensures Prepend(a, b, Prepend(c, d, r)) == Prepend(a + c, b + d, r)
  {
    if r.Success? {
      assert a + (c + r.value.0) == (a + c) + r.value.0;
      assert b + (d + r.value.1) == (b + d) + r.value.1;
    }
  }

  /**
    The loop of the dict branch: walks the items in order, raising TypeError
    for a non-integer key and ValueError for an index outside [-1, listSize],
    turning -1 and listSize into an append at listSize.
  */
  method DictIndices(items: seq<(PyObject, PyObject)>, size: nat) returns (r: Result<Patch, ListError>)
    ensures r == DictPatch(items, size)
  {
    var indices: seq<int> := [];
    var vals: seq<PyObject> := [];
    var listSize: nat := size;
    var n := 0;
    PrependNothing(DictPatch(items, size));
    while n < |items|
      invariant 0 <= n <= |items|
      invariant DictPatch(items, size) == Prepend(indices, vals, DictPatch(items[n..], listSize))
    {
      var key := items[n].0;
      assert items[n..][0] == items[n] && items[n..][1..] == items[n + 1..];
      if !key.PyInt? {
        return Failure(TypeError);
      }
      var idx := AsLong(key.i);
      if idx < -1 || idx > listSize {
        return Failure(ValueError);
      }
      PrependPrepend(indices, vals, [if idx == -1 || idx == listSize then listSize else idx], [items[n].1],
                     DictPatch(items[n + 1..], if idx == -1 || idx == listSize then listSize + 1 else listSize));
      if idx == -1 || idx == listSize {
        idx := listSize;
        listSize := listSize + 1;
      }
      indices := indices + [idx];
      vals := vals + [items[n].1];
      n := n + 1;
    }
    assert items[n..] == [];
    assert indices + [] == indices && vals + [] == vals;
    return Success((indices, vals));
  }

  /** The number of appends among items of a patch that succeeds. */
  function Appends(items: seq<(PyObject, PyObject)>, listSize: nat): nat
    decreases |items|
  {
    if items == [] || !items[0].0.PyInt? then 0
    else
      var idx := AsLong(items[0].0.i);
      if idx == -1 || idx == listSize then 1 + Appends(items[1..], listSize + 1)
      else Appends(items[1..], listSize)
  }

  /**
    A successful patch keeps every value, in order, and gives each a target
    index inside the list it grows: at least 0 and below the final size.
  */
  lemma {:induction false} DictPatchShape(items: seq<(PyObject, PyObject)>, listSize: nat)
    requires DictPatch(items, listSize).Success?
    ensures var p := DictPatch(items, listSize).value;
            |p.0| == |items| && |p.1| == |items| &&
            (forall k :: 0 <= k < |items| ==> p.1[k] == items[k].1) &&
            (forall k :: 0 <= k < |items| ==> 0 <= p.0[k] < listSize + Appends(items, listSize))
    decreases |items|
  {
    if items != [] {
      var idx := AsLong(items[0].0.i);
      var next := if idx == -1 || idx == listSize then listSize + 1 else listSize;
      DictPatchShape(items[1..], next);
    }
  }

  /** A dict whose every key is -1 appends all its values at size, size + 1, ... */
  lemma {:induction false} DictPatchAllAppend(items: seq<(PyObject, PyObject)>, listSize: nat)
    requires forall k :: 0 <= k < |items| ==> items[k].0 == PyInt(-1)
    ensures DictPatch(items, listSize).Success?
    ensures |DictPatch(items, listSize).value.0| == |items|
    ensures forall k :: 0 <= k < |items| ==> DictPatch(items, listSize).value.0[k] == listSize + k
    decreases |items|
  {
    if items != [] {
      assert items[0].0 == PyInt(-1);
      forall k | 0 <= k < |items[1..]| ensures items[1..][k].0 == PyInt(-1) {
        assert items[1..][k] == items[k + 1];
      }
      DictPatchAllAppend(items[1..], listSize + 1);
    }
  }

  /**
    A patch fails exactly when some item's key is refused; the first refused
    key decides which error: TypeError for a non-integer, ValueError for an
    index outside [-1, running size].
  */
  lemma {:induction false} DictPatchFailure(items: seq<(PyObject, PyObject)>, listSize: nat)
    ensures DictPatch(items, listSize).Failure? <==>
            exists k :: 0 <= k < |items| && Refused(items, listSize, k)
    decreases |items|
  {
    if items != [] {
      var idx := if items[0].0.PyInt? then AsLong(items[0].0.i) else 0;
      var next := if idx == -1 || idx == listSize then listSize + 1 else listSize;
      DictPatchFailure(items[1..], next);
      if !Refused(items, listSize, 0) {
        forall k | 1 <= k < |items| ensures Refused(items, listSize, k) <==> Refused(items[1..], next, k - 1) {
          RefusedShift(items, listSize, k);
        }
        if DictPatch(items, listSize).Failure? {
          var j :| 0 <= j < |items[1..]| && Refused(items[1..], next, j);
          assert Refused(items, listSize, j + 1);
        }
      }
    }
  }

  /** The running size before item `k`. */
  function SizeBefore(items: seq<(PyObject, PyObject)>, listSize: nat, k: nat): int
    requires k <= |items|
  {
    listSize + Appends(items[..k], listSize)
  }

  /** Item `k` is the first whose key the loop refuses. */
  predicate Refused(items: seq<(PyObject, PyObject)>, listSize: nat, k: nat)
    requires k < |items|
  {
    (forall j :: 0 <= j < k ==> items[j].0.PyInt?) &&
    (!items[k].0.PyInt? ||
     var idx := AsLong(items[k].0.i); idx < -1 || idx > SizeBefore(items, listSize, k))
  }

  lemma {:induction false} AppendsShift(items: seq<(PyObject, PyObject)>, listSize: nat, k: nat)
    requires 1 <= k <= |items|
    requires items[0].0.PyInt?
    ensures var idx := AsLong(items[0].0.i);
            var next := if idx == -1 || idx == listSize then listSize + 1 else listSize;
            SizeBefore(items, listSize, k) == SizeBefore(items[1..], next, k - 1)
  {
    assert items[..k][1..] == items[1..][..k - 1];
  }

  lemma RefusedShift(items: seq<(PyObject, PyObject)>, listSize: nat, k: nat)
    requires 1 <= k < |items|
    requires items[0].0.PyInt?
    ensures var idx := AsLong(items[0].0.i);
            var next := if idx == -1 || idx == listSize then listSize + 1 else listSize;
            Refused(items, listSize, k) <==> Refused(items[1..], next, k - 1)
  {
    AppendsShift(items, listSize, k);
    var idx := AsLong(items[0].0.i);
    var next := if idx == -1 || idx == listSize then listSize + 1 else listSize;
    if Refused(items[1..], next, k - 1) {
      forall j | 0 <= j < k ensures items[j].0.PyInt? {
        if j > 0 { assert items[j] == items[1..][j - 1]; }
      }
    }
  }

  /**
    `_setPyObject(value)`: the arguments it hands to `setPyValues`. A dict
    gives a patch; a sequence or an iterable gives all its elements and no
    indices; anything else is a one-element list.
  */
  method SetPyObjectArgs(value: PyObject, size: nat) returns (r: Result<Patch, ListError>)
    ensures value.PyDict? ==> r == DictPatch(value.items, size)
    ensures value.PySequence? || value.PyIterable? ==> r == Success(([], value.elems))
    ensures value.PyInt? || value.PyOpaque? ==> r == Success(([], [value]))
  {
    if value.PyDict? {
      r := DictIndices(value.items, size);
    } else {
      var vals: seq<PyObject> := [];
      var seqValue: Option<seq<PyObject>> := None;
      if value.PySequence? {
        seqValue := Some(value.elems);
      } else if value.PyIterable? {
        seqValue := Some(value.elems);
      } else {
        vals := [value];
      }
      if seqValue.Some? {
        var k := 0;
        while k < |seqValue.value|
          invariant 0 <= k <= |seqValue.value|
          invariant vals == seqValue.value[..k]
        {
          vals := vals + [seqValue.value[k]];
          k := k + 1;
        }
        assert seqValue.value[..k] == seqValue.value;
      }
      r := Success(([], vals));
    }
  }

  /** `s` holds "::" at index `k`. */
  predicate ColonsAt(s: string, k: int) {
    0 <= k && k + 1 < |s| && s[k] == ':' && s[k + 1] == ':'
  }

  /** Where `strstr(name, "::")` finds its match: the first "::", if any. */
  function FirstColons(s: string): (r: Option<nat>)
    ensures r.Some? ==> ColonsAt(s, r.value) && forall k :: 0 <= k < r.value ==> !ColonsAt(s, k)
    ensures r.None? ==> forall k :: 0 <= k < |s| ==> !ColonsAt(s, k)
    decreases |s|
  {
    if |s| < 2 then None
    else if s[0] == ':' && s[1] == ':' then Some(0)
    else
      var t := FirstColons(s[1..]);
      assert forall k :: 1 <= k < |s| ==> (ColonsAt(s, k) <==> ColonsAt(s[1..], k - 1));
      match t
      case None => None
      case Some(k) => Some(k + 1)
  }

  /**
    The text after the first "::", or all of `s` when there is none: what
    `xmlName()` keeps of the type name before looking for "Property".
  */
  function AfterNamespace(s: string): (r: string)
    ensures |r| <= |s| && r == s[|s| - |r|..]
    ensures (forall k :: 0 <= k < |s| ==> !ColonsAt(s, k)) ==> r == s
    ensures forall k :: ColonsAt(s, k) && (forall j :: 0 <= j < k ==> !ColonsAt(s, j)) ==> r == s[k + 2..]
    ensures r == s <==> forall k :: 0 <= k < |s| ==> !ColonsAt(s, k)
  {
    match FirstColons(s)
    case None => s
    case Some(k) => s[k + 2..]
  }

  /**
    `xmlName()`: the C++ type name without its namespace (the text up to and
    including the first "::") and without a leading "Property". A name with
    no "::" is returned whole, "Property" and all.
  */
  function XmlName(typeName: string): (r: string)
    ensures |r| <= |typeName| && r == typeName[|typeName| - |r|..]
    ensures (forall k :: 0 <= k < |typeName| ==> !ColonsAt(typeName, k)) ==> r == typeName
    ensures forall k :: ColonsAt(typeName, k) && (forall j :: 0 <= j < k ==> !ColonsAt(typeName, j)) ==>
              (r == typeName[k + 2..] || ("Property" + r == typeName[k + 2..]))
    ensures forall k :: ColonsAt(typeName, k) && (forall j :: 0 <= j < k ==> !ColonsAt(typeName, j)) ==>
              (r == typeName[k + 2..] <==> !(|typeName[k + 2..]| >= 8 && typeName[k + 2..][..8] == "Property"))
  {
    var rest := AfterNamespace(typeName);
    if rest == typeName then typeName
    else if |rest| >= 8 && rest[..8] == "Property" then
      assert "Property" + rest[8..] == rest;
      rest[8..]
    else rest
  }

  /** A namespace free of ':' is dropped together with the "::" after it. */
  lemma AfterNamespaceSplit(ns: string, s: string)
    requires ':' !in ns
    ensures AfterNamespace(ns + "::" + s) == s
  {
    var t := ns + "::" + s;
    assert ColonsAt(t, |ns|);
    forall j | 0 <= j < |ns|
      ensures !ColonsAt(t, j)
    {
      assert t[j] == ns[j];
    }
    assert t[|ns| + 2..] == s;
  }

  /** "App::PropertyIntegerList" saves as element "IntegerList", and so on. */
  lemma XmlNameOfType(ns: string, s: string)
    requires ':' !in ns
    ensures XmlName(ns + "::Property" + s) == s
  {
    assert ns + "::Property" + s == ns + "::" + ("Property" + s);
    AfterNamespaceSplit(ns, "Property" + s);
    assert ("Property" + s)[8..] == s;
  }

  /** The XML element `PropertyLists::Save` writes for a list, in the model's terms. */
  datatype ListSaveForm =
    | EmptyPlaceholder          // <Element file=""/>
    | Inline(count: nat)        // <Element count="n" ... then saveXML's content
    | SideFile(file: string)    // <Element file="name"/>, the data in a side file

  /** The context `Save` consults: the writer's flags and whether the list can be streamed. */
  datatype SaveContext = SaveContext(canSaveStream: bool, forceXML: bool, preferBinary: bool)

  /** The side-file suffix: ".bin" when the writer prefers binary, else ".txt". */
  function SideFileSuffix(preferBinary: bool): string {
    if preferBinary then ".bin" else ".txt"
  }

  /**
    `PropertyLists::Save`: an empty list that can be streamed writes the empty
    placeholder; a list that must be (or can only be) written as XML is saved
    inline with its count; otherwise it goes to a side file named by
    `getFileName`. `Writer::addFile` is taken to record the name it is given.
  */
  function SaveForm(size: nat, ctx: SaveContext, name: Option<string>, father: Option<Container>): (f: ListSaveForm)
    ensures f.EmptyPlaceholder? <==> size == 0 && ctx.canSaveStream
    ensures f.Inline? <==> (size != 0 || !ctx.canSaveStream) && (ctx.forceXML || !ctx.canSaveStream)
    ensures f.Inline? ==> f.count == size
    ensures f.SideFile? ==> f.file == FileName(name, father, Some(SideFileSuffix(ctx.preferBinary)), None)
  {
    if size == 0 && ctx.canSaveStream then EmptyPlaceholder
    else if ctx.forceXML || !ctx.canSaveStream then Inline(size)
    else SideFile(FileName(name, father, Some(SideFileSuffix(ctx.preferBinary)), None))
  }

  /** The attributes of the element `Restore` reads: `file` (default "") and whether `count` is present. */
  datatype ListAttributes = ListAttributes(file: string, hasCount: bool)

  function AttributesOf(f: ListSaveForm): ListAttributes {
    match f
    case EmptyPlaceholder => ListAttributes("", false)
    case Inline(_) => ListAttributes("", true)
    case SideFile(name) => ListAttributes(name, false)
  }

  /** What `PropertyLists::Restore` does. */
  datatype RestoreAction =
    | ScheduleFile(file: string)  // reader.addFile: the data is read later by RestoreDocFile
    | RestoreInline               // restoreXML
    | ClearList                   // setSize(0)
    | KeepList                    // nothing to do

  /**
    `PropertyLists::Restore`: a non-empty file attribute schedules that file,
    else a count attribute restores inline, else a non-empty list is cleared.
  */
  function RestoreActionFor(attrs: ListAttributes, currentSize: nat): (a: RestoreAction)
    ensures a.ScheduleFile? <==> attrs.file != ""
    ensures a.ScheduleFile? ==> a.file == attrs.file
    ensures a.RestoreInline? <==> attrs.file == "" && attrs.hasCount
    ensures a.ClearList? <==> attrs.file == "" && !attrs.hasCount && currentSize != 0
  {
    if attrs.file != "" then ScheduleFile(attrs.file)
    else if attrs.hasCount then RestoreInline
    else if currentSize != 0 then ClearList
    else KeepList
  }

  /**
    Restoring what Save wrote takes the path Save chose: the side file is
    scheduled under the name written, an inline list is restored inline, and
    an empty list leaves the restored list empty.
  */
  lemma SaveRestoreAgree(size: nat, ctx: SaveContext, name: Option<string>, father: Option<Container>, currentSize: nat)
    ensures var f := SaveForm(size, ctx, name, father);
            var a := RestoreActionFor(AttributesOf(f), currentSize);
            (f.SideFile? ==> a == ScheduleFile(f.file)) &&
            (f.Inline? ==> a == RestoreInline) &&
            (f.EmptyPlaceholder? ==> (a == ClearList || (a == KeepList && currentSize == 0)))
  {
    var f := SaveForm(size, ctx, name, father);
    if f.SideFile? {
      FileNameFrame(name, father, SideFileSuffix(ctx.preferBinary), None);
    }
  }

  /** `boost::ends_with(s, suffix)` */
  predicate EndsWith(s: string, suffix: string) {
    |suffix| <= |s| && s[|s| - |suffix|..] == suffix
  }

  /** `RestoreDocFile` reads in binary mode unless the file name ends with ".txt". */
  function RestoreBinary(fileName: string): bool {
    !EndsWith(fileName, ".txt")
  }

  /** `SaveDocFile` writes the size as a `uint32_t`. */
  function SavedCount(size: nat): (c: nat)
    ensures c < 0x1_0000_0000
    ensures size < 0x1_0000_0000 ==> c == size
  {
    size % 0x1_0000_0000
  }

  /**
    A side file is read back in the mode it was written in: binary exactly
    when the writer preferred binary.
  */
  lemma SideFileModeRoundTrip(size: nat, ctx: SaveContext, name: Option<string>, father: Option<Container>)
    requires SaveForm(size, ctx, name, father).SideFile?
    ensures RestoreBinary(SaveForm(size, ctx, name, father).file) == ctx.preferBinary
  {
    var suffix := SideFileSuffix(ctx.preferBinary);
    var file := SaveForm(size, ctx, name, father).file;
    FileNameFrame(name, father, suffix, None);
    if ctx.preferBinary {
      assert file[|file| - 4..] == ".bin";
      assert file[|file| - 4..] != ".txt" by { assert ".bin"[1] != ".txt"[1]; }
    }
  }
}
