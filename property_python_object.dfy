/**
  App::PropertyPythonObject: the property that holds a scripting object (a
  FeaturePython proxy). The model covers the escaping of the legacy `value`
  attribute (`encodeValue` / `decodeValue`), the attribute cascade of `Save`,
  the choice of buffer and loader in `Restore`, and the
  `aboutToSetValue` / `hasSetValue` bracket around every change of the held
  object.

  The scripting object is a symbolic term: a value built by importing a
  class, by loading JSON text into an object, and so on. The JSON and base64
  codecs and the module import are parameters.
*/
module PropertyPythonObject {
  import opened Wrappers
  import Properties
  import PropertyStatus

  // ---------------------------------------------------------------------
  // encodeValue / decodeValue

  /** The escape `encodeValue` writes for one character. */
  function EncodeChar(c: char): string {
    if c == '<' then "&lt;"
    else if c == '"' then "&quot;"
    else if c == '&' then "&amp;"
    else if c == '>' then "&gt"
    else if c == '\n' then "\\n"
    else [c]
  }

  /** `encodeValue`: every character replaced by its escape, in order. */
  function Encode(s: string): (r: string)
    decreases |s|
  {
    if s == [] then [] else EncodeChar(s[0]) + Encode(s[1..])
  }

  /** Encoding distributes over concatenation: each character is escaped on its own. */
  lemma {:induction false} EncodeAppend(a: string, b: string)
    ensures Encode(a + b) == Encode(a) + Encode(b)
    decreases |a|
  {
    if a == [] {
      assert a + b == b;
    } else {
      assert (a + b)[0] == a[0];
      assert (a + b)[1..] == a[1..] + b;
      EncodeAppend(a[1..], b);
    }
  }

  /** The loop of `encodeValue`. */
  method EncodeValue(s: string) returns (r: string)
    ensures r == Encode(s)
  {
    r := [];
    var i := 0;
    while i < |s|
      invariant 0 <= i <= |s|
      invariant r == Encode(s[..i])
    {
      var c := s[i];
      if c == '<' {
        r := r + "&lt;";
      } else if c == '"' {
        r := r + "&quot;";
      } else if c == '&' {
        r := r + "&amp;";
      } else if c == '>' {
        r := r + "&gt";
      } else if c == '\n' {
        r := r + "\\n";
      } else {
        r := r + [c];
      }
      assert s[..i + 1] == s[..i] + [c];
      EncodeAppend(s[..i], [c]);
      assert Encode([c]) == EncodeChar(c);
      i := i + 1;
    }
    assert s[..i] == s;
  }

  /** The output of `encodeValue` never holds a raw newline. */
  lemma {:induction false} EncodeHasNoNewline(s: string)
    ensures '\n' !in Encode(s)
    decreases |s|
  {
    if s != [] {
      EncodeHasNoNewline(s[1..]);
    }
  }

  /**
    `decodeValue` is defined on `s`: no backslash that starts an escape is the
    last character (the loop would step past the end).
  */
  predicate DecodeDefined(s: string)
    decreases |s|
  {
    if s == [] then true
    else if s[0] == '\\' then |s| >= 2 && DecodeDefined(s[2..])
    else DecodeDefined(s[1..])
  }

  /** `decodeValue`: backslash-n becomes a newline, a backslash and any other character after it vanish. */
  function Decode(s: string): (r: string)
    requires DecodeDefined(s)
    ensures |r| <= |s|
    decreases |s|
  {
    if s == [] then []
    else if s[0] == '\\' then (if s[1] == 'n' then "\n" else "") + Decode(s[2..])
    else [s[0]] + Decode(s[1..])
  }

  /** The loop of `decodeValue`. */
  method DecodeValue(s: string) returns (r: string)
    requires DecodeDefined(s)
    ensures r == Decode(s)
  {
    r := [];
    var i := 0;
    ghost var total := Decode(s);
    assert s[0..] == s;
    while i < |s|
      invariant 0 <= i <= |s|
      invariant DecodeDefined(s[i..])
      invariant total == r + Decode(s[i..])
    {
      ghost var piece, next := DecodeStep(s, i, r, total);
      ghost var r0 := r;
      if s[i] == '\\' {
        i := i + 1;
        if i < |s| && s[i] == 'n' {
          r := r + "\n";
        }
      } else {
        r := r + [s[i]];
      }
      i := i + 1;
      assert i == next && r == r0 + piece;
    }
    assert s[i..] == [];
  }

  /** One step of `decodeValue` from position `i`: the text it appends and where it moves to. */
  lemma DecodeStep(s: string, i: nat, done: string, total: string) returns (piece: string, next: nat)
    requires i < |s| && DecodeDefined(s[i..])
    requires total == done + Decode(s[i..])
    ensures next <= |s| && DecodeDefined(s[next..])
    ensures total == (done + piece) + Decode(s[next..])
    ensures s[i] == '\\' ==> next == i + 2 && piece == (if s[i + 1] == 'n' then "\n" else "")
    ensures s[i] != '\\' ==> next == i + 1 && piece == [s[i]]
  {
    assert s[i..][1..] == s[i + 1..];
    if s[i] == '\\' {
      assert s[i..][2..] == s[i + 2..];
      piece, next := if s[i + 1] == 'n' then "\n" else "", i + 2;
    } else {
      piece, next := [s[i]], i + 1;
    }
  }

  /** The characters `decodeValue(encodeValue(s))` cannot carry. */
  predicate Plain(c: char) {
    c != '<' && c != '"' && c != '&' && c != '>' && c != '\\'
  }

  /** For text of plain characters and newlines, decoding the encoding gives the text back. */
  lemma {:induction false} DecodeEncode(s: string)
    requires forall i :: 0 <= i < |s| ==> Plain(s[i])
    ensures DecodeDefined(Encode(s)) && Decode(Encode(s)) == s
    decreases |s|
  {
    if s != [] {
      DecodeEncode(s[1..]);
      var e := Encode(s);
      assert e == EncodeChar(s[0]) + Encode(s[1..]);
      if s[0] == '\n' {
        assert e[2..] == Encode(s[1..]);
      } else {
        assert e[1..] == Encode(s[1..]);
      }
    }
  }

  /** A literal backslash does not survive: the two characters `\` `n` come back as one newline. */
  lemma BackslashIsLost()
    ensures DecodeDefined(Encode("\\n")) && Decode(Encode("\\n")) == "\n"
  {
    assert Encode("\\n") == "\\n";
  }

  // ---------------------------------------------------------------------
  // The held object

  /** A scripting object, as the terms of the operations that built it. */
  datatype PyValue =
    | PyNone
    | PyValueOf(id: nat)                               // an object handed in by a caller
    | PyNew(moduleName: string, cls: string)           // a new instance of module.cls
    | PyLoaded(prior: PyValue, json: string)           // fromString: json.loads then __setstate__ / __dict__
    | PyPickled(prior: PyValue, text: string)          // loadPickle: attributes read from pickle text
    | PyBackLink(prior: PyValue, attribute: string)    // restoreObject: __object__ / __vobject__ set

  /** `fromString(repr)`: an empty representation leaves the object alone. */
  function FromString(obj: PyValue, repr: string): (r: PyValue)
    ensures repr == "" ==> r == obj
    ensures repr != "" ==> r == PyLoaded(obj, repr)
  {
    if repr == "" then obj else PyLoaded(obj, repr)
  }

  // ---------------------------------------------------------------------
  // Save

  /** What `Save` finds on the object: `__module__`, `__class__` and the class's `__name__`. */
  datatype Identity =
    | ModuleClass(moduleName: string, name: string)  // both attributes, and the class has a name
    | UnnamedClass                                 // both attributes, but no class name
    | NoModuleClass                                // one of them missing

  /** The kind of container the property belongs to. */
  datatype ContainerKind = DocumentObjectContainer | ViewProviderContainer | OtherContainer

  /** The writer's settings and what the object offers `Save`. */
  datatype SaveInput = SaveInput(
    identity: Identity,
    container: ContainerKind,
    hasObjectAttr: bool,    // __object__
    hasVobjectAttr: bool,   // __vobject__
    fileVersion: int,
    forceXML: bool,
    json: string,           // toString()
    sideFile: string)       // getFileName(".json") as recorded by the writer

  /** The `<Python .../>` element as written: its attributes in order and any character data. */
  datatype PythonElement = PythonElement(attributes: seq<(string, string)>, characters: Option<string>)

  /** The value of the first attribute called `name`. */
  function Attr(attributes: seq<(string, string)>, name: string): (r: Option<string>)
    ensures r.Some? <==> exists k :: 0 <= k < |attributes| && attributes[k].0 == name
    decreases |attributes|
  {
    if attributes == [] then None
    else if attributes[0].0 == name then Some(attributes[0].1)
    else Attr(attributes[1..], name)
  }

  /** The identity attributes: module and class, or json="yes" when one is missing. */
  function IdentityAttributes(id: Identity): seq<(string, string)> {
    match id
    case ModuleClass(m, n) => [("module", m), ("class", n)]
    case UnnamedClass => []
    case NoModuleClass => [("json", "yes")]
  }

  /** `saveObject`: the back-link markers. */
  function BackLinkAttributes(inp: SaveInput): seq<(string, string)> {
    (if inp.container.DocumentObjectContainer? && inp.hasObjectAttr then [("object", "yes")] else [])
    + (if inp.container.ViewProviderContainer? && inp.hasVobjectAttr then [("vobject", "yes")] else [])
  }

  /** How the value is carried. */
  datatype ValueForm = Base64Value | NullValue | CharacterData | EmptyValue | SideFileValue

  /**
    The cascade of `Save`: an old file version gets the base64 value; a
    forced-XML writer gets "null" inline, the JSON as character data, or
    nothing when the JSON is empty; otherwise the JSON goes to a side file.
  */
  function ValueFormOf(inp: SaveInput): ValueForm {
    if inp.fileVersion <= 1 then Base64Value
    else if inp.forceXML then
      if inp.json == "null" then NullValue
      else if |inp.json| > 0 then CharacterData
      else EmptyValue
    else SideFileValue
  }

  /** The attributes that carry the value, in the form the cascade chose. */
  function ValueAttributes(inp: SaveInput, b64: string -> string): seq<(string, string)> {
    match ValueFormOf(inp)
    case Base64Value => [("value", b64(inp.json)), ("encoded", "yes")]
    case NullValue => [("value", "null")]
    case CharacterData => [("cdata", "1")]
    case EmptyValue => []
    case SideFileValue => [("file", inp.sideFile)]
  }

  /** `Save`, with `b64` the base64 encoder. */
  function SaveElement(inp: SaveInput, b64: string -> string): (e: PythonElement)
    ensures e.characters.Some? <==> ValueFormOf(inp) == CharacterData
    ensures ValueFormOf(inp) == Base64Value ==>
              Attr(e.attributes, "value") == Some(b64(inp.json)) && Attr(e.attributes, "encoded") == Some("yes")
    ensures ValueFormOf(inp) == NullValue ==> Attr(e.attributes, "value") == Some("null")
    ensures ValueFormOf(inp) == CharacterData ==> Attr(e.attributes, "cdata") == Some("1")
    ensures ValueFormOf(inp) == SideFileValue ==> Attr(e.attributes, "file") == Some(inp.sideFile)
  {
    var head := IdentityAttributes(inp.identity) + BackLinkAttributes(inp);
    var tail := ValueAttributes(inp, b64);
    ValueLookups(inp, b64);
    AttrConcat(head, tail, "value");
    AttrConcat(head, tail, "encoded");
    AttrConcat(head, tail, "cdata");
    AttrConcat(head, tail, "file");
    PythonElement(head + tail, if ValueFormOf(inp) == CharacterData then Some("\n" + inp.json + "\n") else None)
  }

  /** A lookup in two lists of attributes finds the first list's attribute, if it has one. */
  lemma {:induction false} AttrConcat(head: seq<(string, string)>, tail: seq<(string, string)>, name: string)
    ensures Attr(head + tail, name) == if Attr(head, name).Some? then Attr(head, name) else Attr(tail, name)
    decreases |head|
  {
    if head == [] {
      assert head + tail == tail;
    } else {
      assert (head + tail)[0] == head[0];
      assert (head + tail)[1..] == head[1..] + tail;
      AttrConcat(head[1..], tail, name);
    }
  }

  /** What a lookup finds among the identity, back-link and value attributes. */
  lemma ValueLookups(inp: SaveInput, b64: string -> string)
    ensures var h := IdentityAttributes(inp.identity) + BackLinkAttributes(inp);
            Attr(h, "value").None? && Attr(h, "encoded").None? && Attr(h, "cdata").None? && Attr(h, "file").None?
    ensures var t := ValueAttributes(inp, b64);
            Attr(t, "module").None? && Attr(t, "class").None? && Attr(t, "json").None? &&
            Attr(t, "object").None? && Attr(t, "vobject").None?
  {
    HeadLookups(inp);
    TailLookups(inp, b64);
  }

  /** The identity and back-link attributes are named "module", "class", "json", "object" or "vobject". */
  lemma HeadLookups(inp: SaveInput)
    ensures var h := IdentityAttributes(inp.identity) + BackLinkAttributes(inp);
            Attr(h, "value").None? && Attr(h, "encoded").None? && Attr(h, "cdata").None? && Attr(h, "file").None?
  {
    var h := IdentityAttributes(inp.identity) + BackLinkAttributes(inp);
    forall k | 0 <= k < |h|
      ensures h[k].0 != "value" && h[k].0 != "encoded" && h[k].0 != "cdata" && h[k].0 != "file"
    {
      var n := h[k].0;
      assert n == "module" || n == "class" || n == "json" || n == "object" || n == "vobject";
      NamesOfEqualLengthDiffer();
    }
  }

  /** The value attributes are named "value", "encoded", "cdata" or "file". */
  lemma TailLookups(inp: SaveInput, b64: string -> string)
    ensures var t := ValueAttributes(inp, b64);
            Attr(t, "module").None? && Attr(t, "class").None? && Attr(t, "json").None? &&
            Attr(t, "object").None? && Attr(t, "vobject").None?
  {
    var t := ValueAttributes(inp, b64);
    forall k | 0 <= k < |t|
      ensures t[k].0 != "module" && t[k].0 != "class" && t[k].0 != "json" && t[k].0 != "object" && t[k].0 != "vobject"
    {
      var n := t[k].0;
      assert n == "value" || n == "encoded" || n == "cdata" || n == "file";
      NamesOfEqualLengthDiffer();
    }
  }

  /** The attribute names of the two groups that have the same length still differ. */
  lemma NamesOfEqualLengthDiffer()
    ensures "class" != "value" && "class" != "cdata" && "json" != "file" && "vobject" != "encoded"
  {
    assert "class"[0] != "value"[0];
    assert "class"[1] != "cdata"[1];
    assert "json"[0] != "file"[0];
    assert "vobject"[0] != "encoded"[0];
  }

  // ---------------------------------------------------------------------
  // Restore

  /** A character of `\w`. */
  predicate WordChar(c: char) {
    ('a' <= c <= 'z') || ('A' <= c <= 'Z') || ('0' <= c <= '9') || c == '_'
  }

  /** Length of the run of word characters at the start of `s`. */
  function WordRun(s: string): (n: nat)
    ensures n <= |s|
    ensures forall k :: 0 <= k < n ==> WordChar(s[k])
    ensures n < |s| ==> !WordChar(s[n])
    decreases |s|
  {
    if s != [] && WordChar(s[0]) then 1 + WordRun(s[1..]) else 0
  }

  /** `\n`, `\r` and form feed: the characters after which Boost's `^` matches. */
  predicate LineSeparator(c: char) {
    c == '\n' || c == '\r' || c as int == 12
  }

  /**
    Where `^` matches under Boost's default (multi-line) flags: at the start
    of the buffer, or after a line separator, except between a '\r' and the
    '\n' that follows it.
  */
  predicate LineStart(buffer: string, i: nat)
    requires i <= |buffer|
  {
    i == 0 || (LineSeparator(buffer[i - 1]) && !(buffer[i - 1] == '\r' && i < |buffer| && buffer[i] == '\n'))
  }

  /**
    `\(i(\w+)\n(\w+)\n` matched at the start of `s`: the module, the class
    and what follows the class name.
  */
  function HeaderAt(s: string): (r: Option<(string, string, string)>)
    ensures r.Some? ==> |s| >= 2 && s[..2] == "(i"
    ensures r.Some? ==> |r.value.2| < |s| && r.value.2 == s[|s| - |r.value.2|..]
  {
    if |s| < 2 || s[..2] != "(i" then None
    else
      var a := s[2..];
      var m := WordRun(a);
      if m == 0 || m >= |a| || a[m] != '\n' then None
      else
        var b := a[m + 1..];
        var c := WordRun(b);
        if c == 0 || c >= |b| || b[c] != '\n' then None
        else Some((a[..m], b[..c], b[c..]))
  }

  /** The first line start at or after `from` where the header matches. */
  function FirstHeader(buffer: string, from: nat): (r: Option<nat>)
    requires from <= |buffer|
    ensures r.Some? ==> from <= r.value <= |buffer| && LineStart(buffer, r.value) &&
                        HeaderAt(buffer[r.value..]).Some?
    ensures r.Some? ==> forall j :: from <= j < r.value && LineStart(buffer, j) ==> HeaderAt(buffer[j..]).None?
    ensures r.None? ==> forall j :: from <= j <= |buffer| && LineStart(buffer, j) ==> HeaderAt(buffer[j..]).None?
    decreases |buffer| - from
  {
    var found := HeaderAt(buffer[from..]);
    if LineStart(buffer, from) && found.Some? then Some(from)
    else if from == |buffer| then None
    else
      var r := FirstHeader(buffer, from + 1);
      assert forall j :: from <= j < from + 1 && LineStart(buffer, j) ==> j == from;
      r
  }

  /**
    The `regex_search` for `^\(i(\w+)\n(\w+)\n` in `Restore`: the module and
    the class of the first match, and the buffer from the end of that class
    name on.
  */
  function PickleHeader(buffer: string): (r: Option<(string, string, string)>)
    ensures r.None? <==> forall i :: 0 <= i <= |buffer| && LineStart(buffer, i) ==> HeaderAt(buffer[i..]).None?
    ensures r.Some? ==> |r.value.2| < |buffer| && r.value.2 == buffer[|buffer| - |r.value.2|..]
  {
    match FirstHeader(buffer, 0)
    case None => None
    case Some(i) =>
      var t := buffer[i..];
      var h := HeaderAt(t);
      assert 0 <= i <= |buffer| && LineStart(buffer, i) && h.Some?;
      var n := |h.value.2|;
      assert n < |t| && h.value.2 == t[|t| - n..];
      SuffixOfSuffix(buffer, i, n);
      assert h.value.2 == buffer[|buffer| - n..];
      h
  }

  /** A suffix of a suffix of `s` is a suffix of `s`. */
  lemma SuffixOfSuffix(s: string, i: nat, n: nat)
    requires i <= |s| && n <= |s| - i
    ensures s[i..][|s[i..]| - n..] == s[|s| - n..]
  {
  }

  /** The header found is the one at the first line start where it matches. */
  lemma PickleHeaderFirst(buffer: string, i: nat)
    requires i <= |buffer| && LineStart(buffer, i) && HeaderAt(buffer[i..]).Some?
    requires forall j :: 0 <= j < i && LineStart(buffer, j) ==> HeaderAt(buffer[j..]).None?
    ensures PickleHeader(buffer) == HeaderAt(buffer[i..])
  {
    FirstHeaderAt(buffer, 0, i);
  }

  /** The search from `from` stops at the first matching line start `i`. */
  lemma {:induction false} FirstHeaderAt(buffer: string, from: nat, i: nat)
    requires from <= i <= |buffer| && LineStart(buffer, i) && HeaderAt(buffer[i..]).Some?
    requires forall j :: from <= j < i && LineStart(buffer, j) ==> HeaderAt(buffer[j..]).None?
    ensures FirstHeader(buffer, from) == Some(i)
    decreases i - from
  {
    if from < i {
      assert !(LineStart(buffer, from) && HeaderAt(buffer[from..]).Some?);
      FirstHeaderAt(buffer, from + 1, i);
    }
  }

  /** A header at the very start is the one found. */
  lemma HeaderAtStart(buffer: string)
    requires HeaderAt(buffer).Some?
    ensures PickleHeader(buffer) == HeaderAt(buffer)
  {
    assert buffer[0..] == buffer;
  }

  /** A run of word characters stops at the first other character. */
  lemma {:induction false} WordRunOf(w: string, t: string)
    requires forall k :: 0 <= k < |w| ==> WordChar(w[k])
    requires t != [] && !WordChar(t[0])
    ensures WordRun(w + t) == |w|
    decreases |w|
  {
    if w == [] {
      assert w + t == t;
    } else {
      assert (w + t)[1..] == w[1..] + t;
      WordRunOf(w[1..], t);
    }
  }

  /** A non-empty run of word characters. */
  predicate Word(w: string) {
    w != [] && forall k :: 0 <= k < |w| ==> WordChar(w[k])
  }

  /** The header written for class `cls` of module `mod`, whatever follows it. */
  lemma HeaderOf(mod: string, cls: string, rest: string)
    requires Word(mod) && Word(cls)
    ensures HeaderAt("(i" + mod + "\n" + cls + "\n" + rest) == Some((mod, cls, "\n" + rest))
  {
    var s := "(i" + mod + "\n" + cls + "\n" + rest;
    assert s[..2] == "(i";
    var a := s[2..];
    assert a == mod + ("\n" + cls + "\n" + rest);
    WordRunOf(mod, "\n" + cls + "\n" + rest);
    assert a[|mod|] == '\n';
    var b := a[|mod| + 1..];
    assert b == cls + ("\n" + rest);
    WordRunOf(cls, "\n" + rest);
    assert a[..|mod|] == mod && b[..|cls|] == cls && b[|cls|..] == "\n" + rest;
  }

  /**
    A header on the line after a first line that does not start with '(' is
    found too, and the rest runs to the end of the buffer.
  */
  lemma HeaderOnLaterLine(line: string, mod: string, cls: string, rest: string)
    requires forall k :: 0 <= k < |line| ==> !LineSeparator(line[k])
    requires line == [] || line[0] != '('
    requires Word(mod) && Word(cls)
    ensures PickleHeader(line + "\n" + ("(i" + mod + "\n" + cls + "\n" + rest)) == Some((mod, cls, "\n" + rest))
  {
    var header := "(i" + mod + "\n" + cls + "\n" + rest;
    var buffer := line + "\n" + header;
    var i := |line| + 1;
    assert buffer[i..] == header;
    HeaderOf(mod, cls, rest);
    forall j | 0 <= j < i && LineStart(buffer, j)
      ensures HeaderAt(buffer[j..]).None?
    {
      assert j == 0;
      assert buffer[0] == if line == [] then '\n' else line[0];
      NoHeaderWithoutParen(buffer[j..]);
    }
    PickleHeaderFirst(buffer, i);
  }

  /** Which loader `Restore` settles on. */
  datatype Loader = LoadJson | LoadPickle | LoadNothing

  /** `Restore`'s scripting-side choices, given whether the module import and class lookup succeed. */
  datatype Selection = Selection(obj: PyValue, loader: Loader, buffer: string)

  /** `decodeValue` is defined on the value attribute whenever `Restore` applies it. */
  predicate RestoreDefined(e: PythonElement) {
    var v := Attr(e.attributes, "value");
    v.Some? && Attr(e.attributes, "encoded") != Some("yes") ==> DecodeDefined(v.value)
  }

  /**
    The buffer of `Restore`: the `value` attribute, base64-decoded (`unb64`)
    when `encoded="yes"`, `decodeValue`d otherwise; empty when there is no
    value attribute.
  */
  function RestoreBuffer(e: PythonElement, unb64: string -> string): string
    requires RestoreDefined(e)
  {
    var v := Attr(e.attributes, "value");
    if v.None? then ""
    else if Attr(e.attributes, "encoded") == Some("yes") then unb64(v.value)
    else Decode(v.value)
  }

  /**
    The loader selection of `Restore`: module and class give a new instance
    (an import failure leaves None and loads nothing); else a pickle header
    gives an instance and the rest of the buffer; else json="yes" loads the
    buffer into the current object.
  */
  function Select(e: PythonElement, current: PyValue, buffer: string, importOk: bool): (s: Selection)
    ensures s.loader == LoadNothing && s.obj != current ==> s.obj == PyNone
  {
    var m := Attr(e.attributes, "module");
    var c := Attr(e.attributes, "class");
    if m.Some? && c.Some? then
      if importOk then Selection(PyNew(m.value, c.value), LoadJson, buffer)
      else Selection(PyNone, LoadNothing, buffer)
    else match PickleHeader(buffer)
      case Some(h) =>
        if importOk then Selection(PyNew(h.0, h.1), LoadPickle, h.2)
        else Selection(PyNone, LoadNothing, buffer)
      case None =>
        Selection(current, if Attr(e.attributes, "json").Some? then LoadJson else LoadNothing, buffer)
  }

  /** `restoreObject`: the back links the element asks for. */
  function RestoreBackLinks(e: PythonElement, obj: PyValue): PyValue {
    var o := if Attr(e.attributes, "object") == Some("yes") then PyBackLink(obj, "__object__") else obj;
    if Attr(e.attributes, "vobject") == Some("yes") then PyBackLink(o, "__vobject__") else o
  }

  /** `getAttributeAsInteger("cdata", "")` is non-zero. */
  predicate CDataSet(e: PythonElement) {
    var v := Attr(e.attributes, "cdata");
    v.Some? && v.value != "" && v.value != "0"
  }

  /** A value added by `Restore` to the reader's list of side files. */
  datatype RestoreResult = RestoreResult(obj: PyValue, scheduledFile: Option<string>)

  /**
    The whole of `Restore` on the held object: selection, back links, then
    the buffer (or the character data) loaded with the selected loader.
  */
  function RestoreSpec(e: PythonElement, current: PyValue, unb64: string -> string, importOk: bool): RestoreResult
    requires RestoreDefined(e)
  {
    var sel := Select(e, current, RestoreBuffer(e, unb64), importOk);
    var linked := RestoreBackLinks(e, sel.obj);
    var buffer := if CDataSet(e) then (if e.characters.Some? then e.characters.value else "") else sel.buffer;
    var file := if !CDataSet(e) && Attr(e.attributes, "file").Some? then Attr(e.attributes, "file") else None;
    RestoreResult(Loaded(linked, buffer, sel.loader), file)
  }

  /** A non-empty buffer loaded into `obj` with `loader`; an empty one loads nothing. */
  function Loaded(obj: PyValue, buffer: string, loader: Loader): PyValue {
    if buffer == "" then obj
    else match loader
      case LoadJson => FromString(obj, buffer)
      case LoadPickle => PyPickled(obj, buffer)
      case LoadNothing => obj
  }

  /**
    JSON text as `toString` writes it (`json.dumps` with an indent): a raw
    line separator only ever ends a line, and no line starts with '('.
  */
  predicate JsonText(json: string) {
    forall i :: 0 <= i < |json| && LineStart(json, i) ==> json[i] != '('
  }

  /** The object restored from what Save wrote (before any back link), by value form and identity. */
  function Expected(inp: SaveInput, current: PyValue): PyValue {
    var start := ExpectedStart(inp, current);
    var loads := !inp.identity.UnnamedClass?;
    match ValueFormOf(inp)
    case Base64Value => if loads then FromString(start, inp.json) else start
    case NullValue => if loads then FromString(start, "null") else start
    case CharacterData => if loads then FromString(start, "\n" + inp.json + "\n") else start
    case EmptyValue => start
    case SideFileValue => start
  }

  /** The buffer `Restore` reads from the value attributes Save wrote. */
  lemma SavedBuffer(inp: SaveInput, b64: string -> string, unb64: string -> string)
    requires unb64(b64(inp.json)) == inp.json
    ensures var e := SaveElement(inp, b64);
            RestoreDefined(e) &&
            RestoreBuffer(e, unb64) == match ValueFormOf(inp)
                                       case Base64Value => inp.json
                                       case NullValue => "null"
                                       case _ => ""
  {
    var e := SaveElement(inp, b64);
    var head := IdentityAttributes(inp.identity) + BackLinkAttributes(inp);
    var tail := ValueAttributes(inp, b64);
    assert e.attributes == head + tail;
    HeadLookups(inp);
    ValueOfTail(inp, b64);
    AttrConcat(head, tail, "value");
    AttrConcat(head, tail, "encoded");
    if ValueFormOf(inp) == NullValue {
      assert DecodeDefined("null") && Decode("null") == "null";
    }
  }

  /** The `value` and `encoded` attributes among the value attributes, by value form. */
  lemma ValueOfTail(inp: SaveInput, b64: string -> string)
    ensures var t := ValueAttributes(inp, b64);
            Attr(t, "value") == (match ValueFormOf(inp)
                                 case Base64Value => Some(b64(inp.json))
                                 case NullValue => Some("null")
                                 case _ => None) &&
            (Attr(t, "encoded") == Some("yes") <==> ValueFormOf(inp) == Base64Value)
  {
    var t := ValueAttributes(inp, b64);
    match ValueFormOf(inp)
    case Base64Value =>
      assert t[1..] == [("encoded", "yes")];
      assert "encoded"[0] != "value"[0];
    case NullValue =>
      assert "value"[0] != "encoded"[0];
    case CharacterData =>
      assert "cdata"[0] != "value"[0] && "cdata"[0] != "encoded"[0];
    case EmptyValue =>
    case SideFileValue =>
      assert "file"[0] != "value"[0] && "file"[0] != "encoded"[0];
  }

  /** What the identity and back-link lookups of `Restore` find in what Save wrote. */
  lemma SavedIdentity(inp: SaveInput, b64: string -> string)
    requires !inp.hasObjectAttr && !inp.hasVobjectAttr
    ensures var a := SaveElement(inp, b64).attributes;
            Attr(a, "object").None? && Attr(a, "vobject").None? &&
            (inp.identity.ModuleClass? ==>
               Attr(a, "module") == Some(inp.identity.moduleName) && Attr(a, "class") == Some(inp.identity.name)) &&
            (!inp.identity.ModuleClass? ==> Attr(a, "module").None?) &&
            (Attr(a, "json").Some? <==> inp.identity.NoModuleClass?)
  {
    var head := IdentityAttributes(inp.identity) + BackLinkAttributes(inp);
    var tail := ValueAttributes(inp, b64);
    assert BackLinkAttributes(inp) == [];
    ValueLookups(inp, b64);
    AttrConcat(head, tail, "object");
    AttrConcat(head, tail, "vobject");
    AttrConcat(head, tail, "module");
    AttrConcat(head, tail, "class");
    AttrConcat(head, tail, "json");
  }

  /** The instance `Restore` starts from, for what Save wrote with a module that imports. */
  function ExpectedStart(inp: SaveInput, current: PyValue): PyValue {
    match inp.identity
    case ModuleClass(m, n) => PyNew(m, n)
    case _ => current
  }

  /** The selection `Restore` makes on what Save wrote. */
  lemma SavedSelection(inp: SaveInput, b64: string -> string, unb64: string -> string, current: PyValue)
    requires unb64(b64(inp.json)) == inp.json
    requires JsonText(inp.json)
    requires !inp.hasObjectAttr && !inp.hasVobjectAttr
    ensures var e := SaveElement(inp, b64);
            RestoreDefined(e) &&
            Select(e, current, RestoreBuffer(e, unb64), true) ==
              Selection(ExpectedStart(inp, current),
                        if inp.identity.UnnamedClass? then LoadNothing else LoadJson,
                        RestoreBuffer(e, unb64))
  {
    var e := SaveElement(inp, b64);
    SavedBuffer(inp, b64, unb64);
    SavedIdentity(inp, b64);
    var buffer := RestoreBuffer(e, unb64);
    if inp.identity.ModuleClass? {
      assert Attr(e.attributes, "module").Some? && Attr(e.attributes, "class").Some?;
    } else {
      assert Attr(e.attributes, "module").None?;
      assert buffer == inp.json || buffer == "null" || buffer == "";
      NullIsJson();
      NoPickleHeader(buffer);
    }
  }

  /** The "null" Save writes for None is JSON text. */
  lemma NullIsJson()
    ensures JsonText("null")
  {
    forall i | 0 <= i < 4 && LineStart("null", i)
      ensures "null"[i] != '('
    {
    }
  }

  /** No line of JSON text starts with the `(i` of a pickle header. */
  lemma NoPickleHeader(buffer: string)
    requires JsonText(buffer)
    ensures PickleHeader(buffer).None?
  {
    forall i | 0 <= i <= |buffer| && LineStart(buffer, i)
      ensures HeaderAt(buffer[i..]).None?
    {
      if i < |buffer| {
        assert buffer[i..][0] == buffer[i];
      }
      NoHeaderWithoutParen(buffer[i..]);
    }
    FirstHeaderNone(buffer, 0);
  }

  /** With no matching line start from `from` on, the search finds nothing. */
  lemma {:induction false} FirstHeaderNone(buffer: string, from: nat)
    requires from <= |buffer|
    requires forall j :: from <= j <= |buffer| && LineStart(buffer, j) ==> HeaderAt(buffer[j..]).None?
    ensures FirstHeader(buffer, from).None?
    decreases |buffer| - from
  {
    assert !(LineStart(buffer, from) && HeaderAt(buffer[from..]).Some?);
    if from < |buffer| {
      FirstHeaderNone(buffer, from + 1);
    }
  }

  /** The header needs its '('. */
  lemma NoHeaderWithoutParen(s: string)
    requires s == [] || s[0] != '('
    ensures HeaderAt(s).None?
  {
    if |s| >= 2 {
      assert s[..2][0] == s[0];
    }
  }

  /** The character data and side file `Restore` finds in what Save wrote. */
  lemma SavedTail(inp: SaveInput, b64: string -> string)
    ensures var e := SaveElement(inp, b64);
            (CDataSet(e) <==> ValueFormOf(inp) == CharacterData) &&
            (Attr(e.attributes, "file").Some? <==> ValueFormOf(inp) == SideFileValue) &&
            (ValueFormOf(inp) == SideFileValue ==> Attr(e.attributes, "file") == Some(inp.sideFile))
  {
    var head := IdentityAttributes(inp.identity) + BackLinkAttributes(inp);
    var tail := ValueAttributes(inp, b64);
    ValueLookups(inp, b64);
    AttrConcat(head, tail, "file");
    AttrConcat(head, tail, "cdata");
  }

  /**
    Restore undoes Save: with a base64 codec that round-trips and a module
    that imports, the object read back is the one the saved JSON describes
    (for an object without back links), and a side file is scheduled
    exactly when Save wrote one.
  */
  lemma SaveRestoreRoundTrip(inp: SaveInput, b64: string -> string, unb64: string -> string, current: PyValue)
    requires unb64(b64(inp.json)) == inp.json
    requires JsonText(inp.json)
    requires !inp.hasObjectAttr && !inp.hasVobjectAttr
    ensures var e := SaveElement(inp, b64);
            RestoreDefined(e) &&
            RestoreSpec(e, current, unb64, true) ==
              RestoreResult(Expected(inp, current),
                            if ValueFormOf(inp) == SideFileValue then Some(inp.sideFile) else None)
  {
    var e := SaveElement(inp, b64);
    SavedBuffer(inp, b64, unb64);
    SavedIdentity(inp, b64);
    SavedSelection(inp, b64, unb64, current);
    SavedTail(inp, b64);
    assert RestoreBackLinks(e, ExpectedStart(inp, current)) == ExpectedStart(inp, current);
  }

  // ---------------------------------------------------------------------
  // The property

  /** The property a `Paste` copies from. */
  datatype PasteSource = FromPythonObject(obj: PyValue) | FromOtherType

  /** A PropertyPythonObject: the held object, and the App::Property it is. */
  class PythonObjectProperty {
    const base: Properties.Property
    var obj: PyValue

    constructor (base: Properties.Property)
      ensures this.base == base && obj == PyNone
    {
      this.base := base;
      obj := PyNone;
    }

    /** The calls of the notify bracket: `onBeforeChange` then `onChanged` when attached. */
    function Bracket(): seq<Properties.Notice>
      reads this, base
    {
      if base.father.Some? then base.notices + [Properties.BeforeChange, Properties.Changed] else base.notices
    }

    /** `setValue(o)` (and `setPyObject(o)`, which behaves the same): the object replaced inside the bracket. */
    method SetValue(o: PyValue)
      modifies this`obj, base`status, base`notices
      ensures obj == o
      ensures base.notices == old(Bracket())
      ensures base.status == old(base.status) + {PropertyStatus.Touched}
    {
      base.AboutToSetValue();
      obj := o;
      base.HasSetValue();
    }

    /** `fromString(repr)`, the JSON loader; the empty representation is a no-op. */
    method FromStringValue(repr: string)
      modifies this`obj
      ensures obj == FromString(old(obj), repr)
    {
      if repr == "" {
        return;
      }
      obj := PyLoaded(obj, repr);
    }

    /** `Paste(from)`: only a property of the same type is copied, inside the bracket. */
    method Paste(from: PasteSource)
      modifies this`obj, base`status, base`notices
      ensures from.FromOtherType? ==> obj == old(obj) && base.notices == old(base.notices)
      ensures from.FromOtherType? ==> base.status == old(base.status)
      ensures from.FromPythonObject? ==>
                obj == from.obj && base.notices == old(Bracket()) &&
                base.status == old(base.status) + {PropertyStatus.Touched}
    {
      if from.FromPythonObject? {
        base.AboutToSetValue();
        obj := from.obj;
        base.HasSetValue();
      }
    }

    /** `RestoreDocFile`: the side file's text loaded with `fromString`, inside the bracket. */
    method RestoreDocFile(contents: string)
      modifies this`obj, base`status, base`notices
      ensures obj == FromString(old(obj), contents)
      ensures base.notices == old(Bracket())
      ensures base.status == old(base.status) + {PropertyStatus.Touched}
    {
      base.AboutToSetValue();
      FromStringValue(contents);
      base.HasSetValue();
    }

    /** The first part of `Restore`: the buffer taken from the `value` attribute. */
    static method ReadBuffer(e: PythonElement, unb64: string -> string) returns (buffer: string)
      requires RestoreDefined(e)
      ensures buffer == RestoreBuffer(e, unb64)
    {
      buffer := "";
      var v := Attr(e.attributes, "value");
      if v.Some? {
        if Attr(e.attributes, "encoded") == Some("yes") {
          buffer := unb64(v.value);
        } else {
          buffer := DecodeValue(v.value);
        }
      }
    }

    /** The last part of `Restore`: a non-empty buffer loaded with the selected loader. */
    method Load(buffer: string, loader: Loader)
      modifies this`obj
      ensures obj == Loaded(old(obj), buffer, loader)
    {
      if buffer != "" {
        if loader == LoadJson {
          FromStringValue(buffer);
        } else if loader == LoadPickle {
          obj := PyPickled(obj, buffer);
        }
      }
    }

    /**
      `Restore(reader)`: the buffer and the instance are chosen before the
      bracket opens; back links, character data and loading happen inside it.
    */
    method Restore(e: PythonElement, unb64: string -> string, importOk: bool) returns (scheduled: Option<string>)
      requires RestoreDefined(e)
      modifies this`obj, base`status, base`notices
      ensures RestoreResult(obj, scheduled) == RestoreSpec(e, old(obj), unb64, importOk)
      ensures base.notices == old(Bracket())
      ensures base.status == old(base.status) + {PropertyStatus.Touched}
    {
      var buffer := ReadBuffer(e, unb64);
      var sel := Select(e, obj, buffer, importOk);
      obj := sel.obj;
      buffer := sel.buffer;
      base.AboutToSetValue();
      obj := RestoreBackLinks(e, obj);
      scheduled := None;
      if CDataSet(e) {
        buffer := if e.characters.Some? then e.characters.value else "";
      } else if Attr(e.attributes, "file").Some? {
        scheduled := Attr(e.attributes, "file");
      }
      Load(buffer, sel.loader);
      base.HasSetValue();
    }
  }
}
