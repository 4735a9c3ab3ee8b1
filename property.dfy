/**
  App::Property: its status word, the calls it makes into the container it
  is attached to, and the names it builds for itself (`getFullName`,
  `getFileName`).

  The container is seen only through what the property asks of it: its own
  full name, its property prefix, and the three callbacks `onBeforeChange`,
  `onChanged` and `onPropertyStatusChanged`. The callbacks are recorded, in
  call order, in the ghost-free trace `notices`.
*/
module Properties {
  import opened Wrappers
  import opened PropertyStatus

  /** A call the property makes into its container. */
  datatype Notice =
    | BeforeChange                         // father->onBeforeChange(this)
    | Changed                              // father->onChanged(this)
    | StatusChanged(oldStatus: StatusBits) // father->onPropertyStatusChanged(*this, oldStatus)

  /** What the property reads of its container: its full name in both forms and its property prefix. */
  datatype Container = Container(fullName: string, pyFullName: string, prefix: string)
  {
    function FullName(python: bool): string {
      if python then pyFullName else fullName
    }
  }

  /** `getFullName(python)`; `name` is `myName`, which may be null. */
  function FullName(name: Option<string>, father: Option<Container>, python: bool): (r: string)
    ensures name.None? || (python && father.None?) ==> r == (if python then "None" else "?")
    ensures name.Some? && father.Some? ==>
              r == father.value.FullName(python) + "." + father.value.prefix + name.value
    ensures name.Some? && father.None? && !python ==> r == name.value
  {
    if name.None? || (python && father.None?) then
      if python then "None" else "?"
    else if father.Some? then
      father.value.FullName(python) + "." + father.value.prefix + name.value
    else
      name.value
  }

  /**
    The text after the first occurrence of `c` in `s`, or all of `s` when `c`
    does not occur (`s.find(c)` followed by `c_str() + pos + 1`).
  */
  function AfterFirst(s: string, c: char): (r: string)
    ensures c !in s ==> r == s
    ensures c in s ==> |r| < |s| && s == s[..|s| - |r| - 1] + [c] + r && c !in s[..|s| - |r| - 1]
    decreases |s|
  {
    if c !in s then s
    else if s[0] == c then s[1..]
    else
      var r := AfterFirst(s[1..], c);
      assert s == [s[0]] + s[1..];
      assert s[..|s| - |r| - 1] == [s[0]] + s[1..][..|s[1..]| - |r| - 1];
      r
  }

  /** The only split of `a + [c] + b` at a first `c` is the one with `c !in a`. */
  lemma {:induction false} AfterFirstSplit(a: string, c: char, b: string)
    requires c !in a
    ensures AfterFirst(a + [c] + b, c) == b
  {
    var s := a + [c] + b;
    var r := AfterFirst(s, c);
    assert s[|a|] == c;
    assert c in s;
    var k := |s| - |r| - 1;
    assert c !in s[..k] && s[k] == c by {
      assert s == s[..k] + [c] + r;
      assert s[k] == (s[..k] + [c] + r)[k];
    }
    if k < |a| {
      assert false;
    } else if k > |a| {
      assert false;
    }
    assert r == s[k + 1..];
    assert s[|a| + 1..] == b;
  }

  /**
    `getFileName(postfix, prefix)`: prefix, then "Property" for an unnamed
    property or the full name with everything up to its first '#' dropped,
    then postfix.
  */
  function FileName(name: Option<string>, father: Option<Container>,
                    postfix: Option<string>, prefix: Option<string>): (r: string)
  {
    (if prefix.Some? then prefix.value else "")
    + (if name.None? then "Property" else AfterFirst(FullName(name, father, false), '#'))
    + (if postfix.Some? then postfix.value else "")
  }

  /** A file name starts with the prefix and ends with the postfix. */
  lemma FileNameFrame(name: Option<string>, father: Option<Container>, postfix: string, prefix: Option<string>)
    ensures var r := FileName(name, father, Some(postfix), prefix);
            |postfix| <= |r| && r[|r| - |postfix|..] == postfix &&
            (prefix.Some? ==> |prefix.value| <= |r| && r[..|prefix.value|] == prefix.value)
  {
    var p := if prefix.Some? then prefix.value else "";
    var m := if name.None? then "Property" else AfterFirst(FullName(name, father, false), '#');
    var r := FileName(name, father, Some(postfix), prefix);
    assert r == p + m + postfix;
    assert r[|r| - |postfix|..] == postfix;
    assert (p + m + postfix)[..|p|] == p;
  }

  /**
    For a property of a document object (whose full name is "Document#Object")
    the file name drops the document: "Object." + prefix + name, framed.
  */
  lemma FileNameDropsDocument(doc: string, obj: string, father: Container, n: string, postfix: string)
    requires '#' !in doc
    requires father.fullName == doc + "#" + obj
    ensures FileName(Some(n), Some(father), Some(postfix), None) == obj + "." + father.prefix + n + postfix
  {
    var full := FullName(Some(n), Some(father), false);
    assert full == doc + ['#'] + (obj + "." + father.prefix + n);
    AfterFirstSplit(doc, '#', obj + "." + father.prefix + n);
  }

  /** An App::Property instance; `status` is `StatusBits`, `father` the container. */
  class Property {
    var name: Option<string>
    var father: Option<Container>
    var status: StatusBits
    var notices: seq<Notice>

    constructor (name: Option<string>, father: Option<Container>)
      ensures this.name == name && this.father == father
      ensures status == {} && notices == []
    {
      this.name := name;
      this.father := father;
      status := {};
      notices := [];
    }

    /** The callback list extended by `n` when a container is attached. */
    function Notify(n: Notice): seq<Notice>
      reads this
    {
      if father.Some? then notices + [n] else notices
    }

    /**
      `setStatusValue(status)`: merges the argument into the status under the
      Prop* mask and reports the old status to the container when ReadOnly or
      Hidden changed.
    */
    method SetStatusValue(requested: StatusWord)
      modifies this`status, this`notices
      ensures status == MergeStatus(old(status), requested)
      ensures notices == old(notices) +
                (if father.Some? && SignalChanged(old(status), status) then [StatusChanged(old(status))] else [])
    {
      var oldStatus := status;
      status := MergeStatus(status, requested);
      if father.Some? && SignalChanged(oldStatus, status) {
        notices := notices + [StatusChanged(oldStatus)];
      }
    }

    /** `setStatus(pos, on)`: `setStatusValue` of the current bits with `pos` set to `on`. */
    method SetStatus(pos: Position, on: bool)
      modifies this`status, this`notices
      ensures status == (if pos in Protected then old(status) else SetBit(old(status), pos, on))
      ensures notices == old(notices) +
                (if father.Some? && SignalChanged(old(status), status) then [StatusChanged(old(status))] else [])
    {
      var bits := SetBit(status, pos, on);
      SetStatusOnlyChangesPos(status, pos, on);
      SetStatusValue(ToWord(bits));
    }

    /** `touch()`: `onChanged` first (with a container), then the Touched bit. */
    method Touch()
      modifies this`status, this`notices
      ensures status == old(status) + {Touched}
      ensures notices == old(Notify(Changed))
    {
      notices := Notify(Changed);
      status := SetBit(status, Touched, true);
    }

    /** `hasSetValue()`: the "after" half of a value change; the same calls as `touch()`. */
    method HasSetValue()
      modifies this`status, this`notices
      ensures status == old(status) + {Touched}
      ensures notices == old(Notify(Changed))
    {
      notices := Notify(Changed);
      status := SetBit(status, Touched, true);
    }

    /** `aboutToSetValue()`: the "before" half of a value change; the status is left alone. */
    method AboutToSetValue()
      modifies this`notices
      ensures notices == old(Notify(BeforeChange))
    {
      notices := Notify(BeforeChange);
    }

    /** `syncType(type)`: sets the mirror bit of each given PropertyType flag. */
    method SyncType(typeFlags: set<TypeFlag>)
      modifies this`status
      ensures status == PropertyStatus.SyncType(old(status), typeFlags)
    {
      status := PropertyStatus.SyncType(status, typeFlags);
    }
  }

  /** `bits.to_ulong()`: the word with the same one bits. */
  function ToWord(bits: StatusBits): (w: StatusWord)
    ensures forall p: Position :: p in w <==> p in bits
    ensures forall q: WordPosition :: q in w ==> q < 32
  {
    set p | p in bits :: p as WordPosition
  }

  /**
    The merge `setStatus` performs changes exactly the bit it asked for,
    unless that bit is one of the protected Prop* bits, which then stays.
  */
  lemma SetStatusOnlyChangesPos(s: StatusBits, pos: Position, on: bool)
    ensures MergeStatus(s, ToWord(SetBit(s, pos, on))) ==
            (if pos in Protected then s else SetBit(s, pos, on))
  {
    var r := MergeStatus(s, ToWord(SetBit(s, pos, on)));
    var e := if pos in Protected then s else SetBit(s, pos, on);
    forall p: Position ensures p in r <==> p in e {
    }
  }
}
