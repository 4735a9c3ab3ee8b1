# FreeCAD property and recompute core, modelled in Dafny

This project models the layer of FreeCAD that every document object is built on: the property, its status
bits and the notifications it sends to its container, list properties and the way they are saved and
restored, the proxy property that holds a Python object, and the bridge that lets a Python proxy implement
the hooks of a feature. It also models the string codec and read-only stream buffers of `Base`, and the
recompute decisions and validation chains of a few concrete features:

- PartDesign features;
- the TechDraw Draft and Arch views;
- the claimed-children filter of the geo-feature-group view provider;
- the tuple helpers of the Path area operation.

One module per source file:

| module | file | source |
|---|---|---|
| `Wrappers` | wrappers.dfy | `Option` and `Result` |
| `PropertyStatus` | property_status.dfy | the status bitset of `App::Property`: merging a status word, the container signal, the `PropertyType` mirror bits |
| `Properties` | property.dfy | `App::Property` as a class: status, container notices, `getFullName`, `getFileName` |
| `PropertyLists` | property_lists.dfy | `PropertyListsBase::_setPyObject` index rules; `PropertyLists` XML name, Save/Restore format, side-file mode |
| `FeaturePython` | feature_python.dfy | `FeaturePythonImp` hook flags and call guard; the `FeaturePythonT` overrides |
| `PropertyPythonObject` | property_python_object.dfy | `encodeValue`/`decodeValue`, the `Save` cascade, `Restore`, the notify brackets |
| `Streams` | stream.dfy | `OutputStream << const char*` and `InputStream >> std::string`, text and binary |
| `StreamBuffers` | streambuf.dfy | `Streambuf` and `ByteArrayIStreambuf` |
| `PartDesignFeature` | partdesign_feature.dfy | `PartDesign::Feature` |
| `TechDrawViews` | techdraw_views.dfy | `DrawViewDraft`, `DrawViewArch` |
| `GeoFeatureGroupViews` | geo_feature_group_view.dfy | `ViewProviderGeoFeatureGroupExtension` |
| `PathAreaOp` | path_area_op.dfy | `sortTuplesByIndex`, `warnDisabledAxis`, `calculateStartFinalDepths`, tuple padding and `nextAxis` |

## How the code is modelled

Where the source changes state, the model does too.

- **Classes.** `Property`, `FeaturePythonImp`, `PythonObjectProperty`, the two streams, the byte cursor and the
  view provider are classes whose methods modify their fields.
- **Specification functions.** Each such method is proved equal to a function of its old state. The
  properties the source promises are then lemmas about that function.
- **Source loops.** The loops of the source stay loops:
  - the write, normalise, count and read loops of the stream;
  - the dict loop of `_setPyObject`;
  - the `init` loop over the hooks;
  - the `outSet` and erase loops of `buildClaimedChildren`;
  - the sort loop of `sortTuplesByIndex`;
  - the padding loop of `opExecute`.

What the model does with things it cannot see:

- **A property's container.** It is a trace of notices (`onBeforeChange`, `onChanged`,
  `onPropertyStatusChanged`).
- **The Python proxy.** It is an oracle: its attributes, and a script of the nested hook calls it makes.
- **Base64 and the Python loaders.** They are function parameters or symbolic values.

## Assumptions

The status bit positions and the `Prop_*` values come from FreeCAD's `Property.h`, which is not part of this
model:

| bit name | position |
|---|---|
| Touched | 0 |
| Immutable | 1 |
| ReadOnly | 2 |
| Hidden | 3 |
| Transient | 4 |
| Output | 7 |
| NoRecompute | 11 |
| PropDynamic | 21 |
| PropNoPersist | 22 |
| PropNoRecompute | 23 |
| PropReadOnly | 24 |
| PropTransient | 25 |
| PropHidden | 26 |
| PropOutput | 27 |

Other headers the model depends on:

- **`BitsetLocker` (Base/Tools.h).** It is taken to set the bit on entry and reset (clear) it on exit. All other headers are not part of this model either.
- **Byte order.** `Stream.h` writes a `uint32_t` in little-endian order.
- **Plain `char`.** `StreamBuffers` takes a parameter saying whether `char` is signed.
- **Boost.Regex `^`.** Under the default flags `^` matches at the start of the buffer and after '\n', '\r' or a form feed, but not between a '\r' and the '\n' after it (`LineStart`).
- **JSON text.** `toString` writes with `json.dumps` and an indent (PropertyPythonObject.cpp:87-130). Such text holds no raw '\r' or form feed, a '\n' only ends a line, and no line starts with '('. `JsonText` states this, and the round trip requires it of the saved JSON.
- **Python errors.** A call with an empty argument (`f(a,,b)`) is a syntax error, and a call through a module name the script never imported is a name error. Either makes `runString` throw (Interpreter.cpp is not part of this model).

## Model

| member | source | states |
|---|---|---|
| PropertyStatus.Low32 | src/App/Property.cpp:205-217 | the bitset built from an unsigned long word has exactly the word's bits below 32 |
| PropertyStatus.SetBit | src/App/Property.cpp:226-230 | `pos` takes the requested value and every other bit keeps its value |
| PropertyStatus.MergeStatus | src/App/Property.cpp:205-217 | each of the six protected `Prop*` bits keeps its current value; every other bit takes the requested word's value (PropNoPersist is not protected) |
| PropertyStatus.SignalChangedIff | src/App/Property.cpp:219-223 | the status signal is due exactly when the ReadOnly or the Hidden bit differs between old and new status |
| PropertyStatus.GetType | src/App/Property.cpp:100-113 | a type flag is reported exactly when its mirror status bit is set |
| PropertyStatus.SyncType | src/App/Property.cpp:115-125 | only sets bits; bits other than the mirrors are unchanged; a mirror bit ends up set iff it was set or its type flag is requested |
| PropertyStatus.GetTypeAfterSyncType | src/App/Property.cpp:100-125 | after `syncType(t)`, `getType()` is the old type plus `t` |
| Properties.FullName | src/App/Property.cpp:70-79 | no name, or python form without container, gives "None"/"?"; with a container, the container's full name, ".", the prefix and the name; otherwise the bare name |
| Properties.AfterFirst | src/App/Property.cpp:81-98 | without `c` the string is unchanged; otherwise the result is what follows the first `c` |
| Properties.AfterFirstSplit | src/App/Property.cpp:88-93 | when the prefix contains no `#`, the part after the first `#` is exactly the suffix |
| Properties.FileNameFrame | src/App/Property.cpp:81-98 | a file name starts with the prefix and ends with the postfix |
| Properties.FileNameDropsDocument | src/App/Property.cpp:81-98 | for a container named `doc#obj`, the file name starts at the object name, so the document name is not in it |
| Properties.Property.constructor | src/App/Property.cpp:54-58 | a new property has the given name and container, no status bit and no notice; the source always starts both as null, which is the case `None`, `None` |
| Properties.Property.SetStatusValue | src/App/Property.cpp:205-224 | status becomes the merge of the old status with the word; a status notice is sent exactly when a container is attached and ReadOnly or Hidden changed |
| Properties.Property.SetStatus | src/App/Property.cpp:226-230 | a protected position is left alone, any other takes the value; the notice rule is that of `setStatusValue` |
| Properties.Property.Touch | src/App/Property.cpp:162-167 | the container's `onChanged` is notified first (when attached), then Touched is set and nothing else changes |
| Properties.Property.HasSetValue | src/App/Property.cpp:174-179 | as `touch`: `onChanged` to the container, then Touched set |
| Properties.Property.AboutToSetValue | src/App/Property.cpp:181-185 | only `onBeforeChange` is sent; status is unchanged |
| Properties.Property.SyncType | src/App/Property.cpp:115-125 | the status becomes `syncType` of the old status |
| Properties.ToWord | src/App/Property.cpp:226-230 | `getStatus()` as a word: the same bits, all below 32 |
| Properties.SetStatusOnlyChangesPos | src/App/Property.cpp:226-230 | `setStatus(pos, on)` is `setStatusValue` of the current word with only `pos` changed, so a protected bit cannot be changed this way |
| PropertyLists.AsLong | src/App/Property.cpp:256 | the key read as a C `long` lies in its range and is the key itself when it fits |
| PropertyLists.PrependPrepend | src/App/Property.cpp:263-264 | pushing indices and values in two steps is pushing them in one |
| PropertyLists.DictIndices | src/App/Property.cpp:241-265 | the loop computes exactly the patch (or the first error) the dict rules define |
| PropertyLists.DictPatchShape | src/App/Property.cpp:241-265 | a successful patch has one index and the item's value per item, and every index lies in `[0, size + appends)` |
| PropertyLists.DictPatchAllAppend | src/App/Property.cpp:257-262 | keys that are all -1 append at `size`, `size + 1`, … in order |
| PropertyLists.DictPatchFailure | src/App/Property.cpp:251-258 | the patch fails exactly when some item is not an integer or lies outside `[-1, running size]`; the first such item decides TypeError or ValueError |
| PropertyLists.SetPyObjectArgs | src/App/Property.cpp:236-287 | a dict gives its patch; a sequence or an iterable gives its elements with no indices; anything else becomes the single value |
| PropertyLists.FirstColons | src/App/Property.cpp:298 | `strstr(name, "::")`: the index of the first `::`, with none before it; none when the name holds no `::` |
| PropertyLists.AfterNamespace | src/App/Property.cpp:296-305 | a suffix of the type name: what follows the first `::`, or the whole name exactly when it holds no `::` |
| PropertyLists.XmlName | src/App/Property.cpp:296-307 | a suffix of the type name; without `::`, the whole name (`PropertyFoo` stays `PropertyFoo`); otherwise what follows the first `::`, less `Property` exactly when it starts with `Property` |
| PropertyLists.AfterNamespaceSplit | src/App/Property.cpp:298-303 | what follows the first `::` is returned |
| PropertyLists.XmlNameOfType | src/App/Property.cpp:296-307 | for `ns::PropertyX` the XML name is `X` |
| PropertyLists.SaveForm | src/App/Property.cpp:309-328 | an empty list with stream saving writes `file=""`; forced XML or no stream saving writes `count` of the size; otherwise a side file named `.bin` or `.txt` by the binary preference |
| PropertyLists.RestoreActionFor | src/App/Property.cpp:330-342 | a non-empty `file` schedules a read; otherwise `count` restores inline; otherwise the list is cleared only when not empty |
| PropertyLists.SaveRestoreAgree | src/App/Property.cpp:309-342 | restoring what Save wrote schedules the side file, reads inline, or clears a non-empty list, as the form demands |
| PropertyLists.SavedCount | src/App/Property.cpp:347 | the saved count is the size truncated to `uint32_t`, which keeps every size below 2^32 |
| PropertyLists.SideFileModeRoundTrip | src/App/Property.cpp:324-354 | the side file is read back in binary exactly when it was written in binary |
| FeaturePython.AllHooksListed | src/App/FeaturePython.h:85-102 | the hook list holds every hook |
| FeaturePython.InitFlags | src/App/FeaturePython.h:107-119 | Calling bits are unchanged; for a bound hook AllowRecursive is the truth of `__allow_recursive_<name>` (false if missing); other hooks keep their bit |
| FeaturePython.FeaturePythonImp.constructor | src/App/FeaturePython.h:142-151 | a new implementation object has no bound hook, no flag and no call |
| FeaturePython.FeaturePythonImp.Init | src/App/FeaturePython.h:107-119 | the bound hooks are those the proxy provides as callables and the flags become `InitFlags` |
| FeaturePython.FeaturePythonImp.Call | src/App/FeaturePython.h:125-132 | the body runs iff the hook is bound and not already running without AllowRecursive; while it runs Calling is set, and afterwards it is reset |
| FeaturePython.FeaturePythonImp.CallFrom | src/App/FeaturePython.h:125-132 | the same guard for a call made while other hooks run |
| FeaturePython.FeaturePythonImp.RunScript | src/App/FeaturePython.h:125-132 | a proxy's nested calls are guarded one after the other |
| FeaturePython.CallSafe | src/App/FeaturePython.h:125-132 | a guarded call never sets a bit that was clear, never changes an AllowRecursive bit, and never lets a hook that forbids recursion run inside itself |
| FeaturePython.ScriptSafe | src/App/FeaturePython.h:125-132 | the same for a sequence of nested calls |
| FeaturePython.TopLevelCallClears | src/App/FeaturePython.h:125-132 | a call from native code leaves the flag word as it was |
| FeaturePython.MustExecuteOverride | src/App/FeaturePython.h:178-183 | touched gives 1 without asking anyone; else a non-zero native answer; else the proxy's 1 or 0 |
| FeaturePython.MustExecuteNonZero | src/App/FeaturePython.h:178-183 | a recompute is asked for iff the object is touched, native asks, or the proxy asks |
| FeaturePython.ExecuteOverride | src/App/FeaturePython.h:184-194 | handled by the proxy gives StdReturn and native is not called; unhandled gives native's report; an exception from either becomes a failure with its message |
| FeaturePython.ViewProviderNameOverride | src/App/FeaturePython.h:195-200 | a non-empty proxy name wins; an empty one asks native |
| FeaturePython.HandledOverride | src/App/FeaturePython.h:207-231 | the proxy's result when it handled the call, native's otherwise |
| FeaturePython.TriStateOverride | src/App/FeaturePython.h:233-266 | a negative proxy answer falls back to native; any other is `!= 0` |
| FeaturePython.VisibilityOverride | src/App/FeaturePython.h:240-252 | -2 falls back to native; any other proxy value is returned |
| FeaturePython.CanLoadPartialOverride | src/App/FeaturePython.h:275-280 | a proxy value of 0 or more is returned; a negative one falls back |
| FeaturePython.RedirectSubNameOverride | src/App/FeaturePython.h:268-273 | the answer is `proxy || native`; native is asked only when the proxy says false |
| FeaturePython.OnBeforeChangeLabelOrder | src/App/FeaturePython.h:301-304 | the proxy is asked first; native only when it did not take the change |
| FeaturePython.OnChangedOrder | src/App/FeaturePython.h:305-310 | a change of Proxy re-runs `init` before the proxy's `onChanged`, which comes before native's |
| FeaturePython.SkippedFallsBack | src/App/FeaturePython.h:125-280 | with a skipped hook every override returns exactly the native answer |
| PropertyPythonObject.EncodeAppend | src/App/PropertyPythonObject.cpp:190-209 | the encoding goes character by character, in order |
| PropertyPythonObject.EncodeValue | src/App/PropertyPythonObject.cpp:190-209 | the loop's output is the per-character escaping: `<` `&lt;`, `"` `&quot;`, `&` `&amp;`, `>` `&gt` without `;`, newline as backslash-n |
| PropertyPythonObject.EncodeHasNoNewline | src/App/PropertyPythonObject.cpp:190-209 | an encoded value never holds a raw newline |
| PropertyPythonObject.Decode | src/App/PropertyPythonObject.cpp:211-226 | decoding never lengthens the text |
| PropertyPythonObject.DecodeValue | src/App/PropertyPythonObject.cpp:211-226 | the loop turns backslash-n into newline, drops a backslash with any other next character, copies the rest; a trailing backslash is excluded |
| PropertyPythonObject.DecodeEncode | src/App/PropertyPythonObject.cpp:190-226 | for text without `<`, `"`, `&`, `>` and backslash, decoding the encoding gives the text back |
| PropertyPythonObject.BackslashIsLost | src/App/PropertyPythonObject.cpp:190-226 | a backslash followed by `n` does not survive: it reads back as a newline |
| PropertyPythonObject.FromString | src/App/PropertyPythonObject.cpp:131-162 | an empty representation leaves the object alone |
| PropertyPythonObject.Attr | src/App/PropertyPythonObject.cpp:330-410 | an attribute is found exactly when the element has one of that name |
| PropertyPythonObject.SaveElement | src/App/PropertyPythonObject.cpp:278-320 | file version ≤ 1 writes the base64 value with `encoded="yes"`; forced XML writes `value="null"`, `cdata="1"` with the text, or nothing; otherwise a `file` attribute |
| PropertyPythonObject.WordRun | src/App/PropertyPythonObject.cpp:344 | the longest prefix of `\w` characters |
| PropertyPythonObject.HeaderAt | src/App/PropertyPythonObject.cpp:344 | a match of `\(i(\w+)\n(\w+)\n` at the start of the text starts with `(i`, and what is left is a proper suffix |
| PropertyPythonObject.FirstHeader | src/App/PropertyPythonObject.cpp:344-377 | the first line start where the header matches, none earlier matching; none when no line start matches |
| PropertyPythonObject.PickleHeader | src/App/PropertyPythonObject.cpp:344-389 | `regex_search`: no header iff no line start matches; else module and class, and the buffer from the end of the class name on, a suffix of the buffer |
| PropertyPythonObject.PickleHeaderFirst | src/App/PropertyPythonObject.cpp:344-389 | the header found is the one at the first line start where it matches |
| PropertyPythonObject.FirstHeaderAt | src/App/PropertyPythonObject.cpp:344-377 | the search from a position stops at the first matching line start |
| PropertyPythonObject.FirstHeaderNone | src/App/PropertyPythonObject.cpp:344-377 | with no matching line start left, the search finds nothing |
| PropertyPythonObject.HeaderAtStart | src/App/PropertyPythonObject.cpp:344-389 | a header at the very start of the buffer is the one found |
| PropertyPythonObject.WordRunOf | src/App/PropertyPythonObject.cpp:344 | a `\w+` run stops at the first other character |
| PropertyPythonObject.HeaderOf | src/App/PropertyPythonObject.cpp:344-389 | `(i<module>\n<class>\n<rest>` gives the module, the class and `\n<rest>` |
| PropertyPythonObject.HeaderOnLaterLine | src/App/PropertyPythonObject.cpp:344-389 | a header on the second line (after a first line without separators that does not start with '(') is found, with the rest up to the end of the buffer |
| PropertyPythonObject.NoPickleHeader | src/App/PropertyPythonObject.cpp:344-389 | JSON text holds no pickle header |
| PropertyPythonObject.NullIsJson | src/App/PropertyPythonObject.cpp:307-309 | the `null` written for None is JSON text |
| PropertyPythonObject.Select | src/App/PropertyPythonObject.cpp:349-399 | when no loader is chosen the object is either kept or reset to None |
| PropertyPythonObject.SavedBuffer | src/App/PropertyPythonObject.cpp:302-340 | Restore's buffer is the Save's JSON for base64, "null" for the null form, empty otherwise |
| PropertyPythonObject.SavedIdentity | src/App/PropertyPythonObject.cpp:228-301 | the module and class Save wrote are what Restore finds; `json` is present iff one of them was missing |
| PropertyPythonObject.SavedSelection | src/App/PropertyPythonObject.cpp:322-399 | on what Save wrote, Restore starts from a new instance of the saved class (or the current object), with the JSON loader unless the class was unnamed |
| PropertyPythonObject.SavedTail | src/App/PropertyPythonObject.cpp:302-411 | Restore reads character data iff Save wrote it, and schedules the side file iff Save wrote one |
| PropertyPythonObject.SaveRestoreRoundTrip | src/App/PropertyPythonObject.cpp:278-421 | Restore undoes Save: the object read back is the one the saved JSON describes, and a side file is scheduled exactly when one was written |
| PropertyPythonObject.PythonObjectProperty.constructor | src/App/PropertyPythonObject.cpp:49-51 | a new property holds None |
| PropertyPythonObject.PythonObjectProperty.SetValue | src/App/PropertyPythonObject.cpp:61-85 | the object is replaced inside one `onBeforeChange`/`onChanged` bracket and Touched is set |
| PropertyPythonObject.PythonObjectProperty.FromStringValue | src/App/PropertyPythonObject.cpp:131-162 | the object becomes `fromString` of the old one |
| PropertyPythonObject.PythonObjectProperty.Paste | src/App/PropertyPythonObject.cpp:450-458 | a source of another type changes nothing and notifies nobody; a Python object source is copied inside the bracket |
| PropertyPythonObject.PythonObjectProperty.RestoreDocFile | src/App/PropertyPythonObject.cpp:428-435 | the file's contents go through `fromString` inside the bracket |
| PropertyPythonObject.PythonObjectProperty.Restore | src/App/PropertyPythonObject.cpp:322-421 | the new object and scheduled file are those of the Restore specification, inside one bracket |
| PropertyPythonObject.PythonObjectProperty.ReadBuffer | src/App/PropertyPythonObject.cpp:329-340 | the buffer is the base64-decoded `value` when `encoded="yes"`, its `decodeValue` otherwise, and empty without a `value` |
| PropertyPythonObject.PythonObjectProperty.Load | src/App/PropertyPythonObject.cpp:413-418 | a non-empty buffer is loaded with the selected loader (JSON or pickle); an empty one changes nothing |
| Streams.NewlineCountAppend | src/Base/Stream.cpp:58-64 | the newline count adds up over concatenation |
| Streams.NewlineCountNone | src/Base/Stream.cpp:58-64 | the count is zero iff there is no newline |
| Streams.NormalizeCounts | src/Base/Stream.cpp:69-81 | normalising never lengthens, keeps the newline count, and leaves text without CR alone |
| Streams.NormalizeAppend | src/Base/Stream.cpp:69-81 | a CR-free prefix passes through unchanged |
| Streams.CarriageReturnRules | src/Base/Stream.cpp:69-81 | a CR at the very end is dropped; CR LF becomes LF; a CR before anything else is kept |
| Streams.Decimal | src/Base/Stream.cpp:67 | the count is written as a non-empty run of digits |
| Streams.Le32 | src/Base/Stream.cpp:51-55 | the binary length is four bytes |
| Streams.OutputStream.constructor | src/Base/Stream.cpp:42-47 | a new stream is empty in the chosen mode |
| Streams.OutputStream.WriteString | src/Base/Stream.cpp:50-86 | text mode appends the newline count, `:`, the normalised text and `\n`; binary mode appends the length as `uint32` and that many bytes |
| Streams.OutputStream.PutNormalized | src/Base/Stream.cpp:69-81 | the loop appends the normalised text |
| Streams.CountNewlines | src/Base/Stream.cpp:58-64 | the loop counts the newlines modulo 2^32 |
| Streams.SpaceEnd | src/Base/Stream.cpp:108 | the white space `>>` skips |
| Streams.DigitEnd | src/Base/Stream.cpp:108 | the digits `>> count` reads |
| Streams.DecimalValue | src/Base/Stream.cpp:67-108 | reading the written decimal count gives the count |
| Streams.ReadHeader | src/Base/Stream.cpp:104-108 | a count read successfully fits a `uint32_t` |
| Streams.Le32Value | src/Base/Stream.cpp:96-98 | a read length fits a `uint32_t` |
| Streams.Le32RoundTrip | src/Base/Stream.cpp:51-98 | the four bytes written read back as the length |
| Streams.Resize | src/Base/Stream.cpp:99 | `resize` gives the new length and keeps the existing characters |
| Streams.BinaryRead | src/Base/Stream.cpp:96-101 | the string takes the read length; the read succeeds iff four length bytes and that many data bytes are there |
| Streams.InputStream.constructor | src/Base/Stream.cpp:90-93 | a new stream is good and at the start |
| Streams.InputStream.Get | src/Base/Stream.cpp:113-118 | `get` succeeds iff the stream is good and not at the end, and then yields the next character |
| Streams.InputStream.ReadCountedLine | src/Base/Stream.cpp:112-128 | the inner loop reads one counted line as the line specification says |
| Streams.InputStream.ReadLastLine | src/Base/Stream.cpp:131-146 | the last-line loop reads up to LF or CR LF, neither extracted |
| Streams.InputStream.ReadCountField | src/Base/Stream.cpp:104-108 | `>> count >> c` reads as the header specification says and fails the stream when it does not succeed |
| Streams.InputStream.ReadString | src/Base/Stream.cpp:95-150 | a failed stream is left alone; otherwise the binary or the text read specification is what happens |
| Streams.InputStream.ReadText | src/Base/Stream.cpp:104-150 | text mode reads the header, the counted lines and the last line |
| Streams.InputStream.ReadLines | src/Base/Stream.cpp:110-129 | the outer loop reads `count` lines, stopping when the stream fails |
| Streams.InputStream.ReadBinary | src/Base/Stream.cpp:96-101 | binary mode reads the length and that many bytes |
| Streams.LineRoundTrip | src/Base/Stream.cpp:112-128 | a line ending in LF reads back with its LF |
| Streams.LastLineRoundTrip | src/Base/Stream.cpp:131-146 | the final line reads back without the newline the writer added |
| Streams.BodyRoundTrip | src/Base/Stream.cpp:69-146 | a CR-free text followed by its newline reads back whole with the right count |
| Streams.ReadsCount | src/Base/Stream.cpp:67-108 | the written count and colon read back as the count |
| Streams.TextRoundTrip | src/Base/Stream.cpp:50-150 | for text without NUL and CR, text-mode read of text-mode write gives the text back and stops right after it |
| Streams.BinaryRoundTrip | src/Base/Stream.cpp:51-101 | binary read of binary write gives the string back and stops right after it |
| Streams.CrlfLineLosesNewline | src/Base/Stream.cpp:116-120 | once its line ends become CR LF, a two-line record reads back with its newline lost |
| Streams.CrlfRoundTripFixed | src/Base/Stream.cpp:95-150 | with CR LF read as LF, the round trip holds for line ends of either kind |
| StreamBuffers.CharValue | src/Base/Stream.cpp:248 | a `char` converted to `int` agrees with the byte modulo 256, and differs from it exactly when `char` is signed and the byte is above 127 (the same code again at line 669) |
| StreamBuffers.PutBack | src/Base/Stream.cpp:246-252 | `pbackfail` fails at the start or when `ch` is neither eof nor the previous `char`; otherwise the cursor steps back and the byte is returned (the same code again at lines 667-673) |
| StreamBuffers.PutBackIntended | src/Base/Stream.cpp:246-252 | the same with the previous byte compared as unsigned (the same code again at lines 667-673) |
| StreamBuffers.PutBackUndoesRead | src/Base/Stream.cpp:238-252 | putting back the byte just read takes the cursor back to where it was (the same code again at lines 659-673) |
| StreamBuffers.PutBackAgrees | src/Base/Stream.cpp:246-252 | with unsigned `char` or a byte below 128, the code as written behaves as intended (the same code again at lines 667-673) |
| StreamBuffers.PutBackHighByteFails | src/Base/Stream.cpp:246-252 | with signed `char`, the byte 200 just read cannot be put back (the same code again at lines 667-673) |
| StreamBuffers.SeekTarget | src/Base/Stream.cpp:259-282 | a target exists iff base plus offset lies within `[beg, end]`, and then it is that position (the same code again at lines 680-703) |
| StreamBuffers.SeekEndFromBeg | src/Base/Stream.cpp:259-282 | seeking `-n` from the end and `size - n` from the start reach the same place (the same code again at lines 680-703) |
| StreamBuffers.ByteCursor.constructor | src/Base/Stream.cpp:219-224 | the cursor starts at the beginning of the data (the same code again at lines 640-645) |
| StreamBuffers.ByteCursor.Underflow | src/Base/Stream.cpp:230-236 | eof exactly at the end; otherwise the current byte, without moving (the same code again at lines 651-657) |
| StreamBuffers.ByteCursor.Uflow | src/Base/Stream.cpp:238-244 | eof exactly at the end without moving; otherwise the current byte and one step forward (the same code again at lines 659-665) |
| StreamBuffers.ByteCursor.PBackFail | src/Base/Stream.cpp:246-252 | cursor and result are those of `PutBack` (the same code again at lines 667-673) |
| StreamBuffers.ByteCursor.ShowManyC | src/Base/Stream.cpp:254-257 | the bytes left, `end - cur`, never negative (the same code again at lines 675-678) |
| StreamBuffers.ByteCursor.SeekOff | src/Base/Stream.cpp:259-282 | outside `[beg, end]`: eof and no move; otherwise the cursor moves to the target and returns it (the same code again at lines 680-703) |
| StreamBuffers.ByteCursor.SeekPos | src/Base/Stream.cpp:284-288 | `seekpos(p)` is `seekoff(p, beg)` (the same code again at lines 705-709) |
| PartDesignFeature.MustExecute | src/Mod/PartDesign/App/Feature.cpp:65-70 | 1 when BaseFeature is touched; otherwise Part::Feature's answer |
| PartDesignFeature.MustExecuteIff | src/Mod/PartDesign/App/Feature.cpp:65-70 | a recompute is asked for iff BaseFeature is touched or Part::Feature asks |
| PartDesignFeature.FindBody | src/Mod/PartDesign/App/Feature.cpp:213-220 | the index of the first in-list Body holding the feature, or none when no Body holds it |
| PartDesignFeature.FeatureBody | src/Mod/PartDesign/App/Feature.cpp:206-222 | the `_Body` link when it is a Body; anything returned is a Body |
| PartDesignFeature.FeatureBodySearch | src/Mod/PartDesign/App/Feature.cpp:206-222 | without a Body link, the result is the first owning Body of the in-list, and none means no Body owns the feature |
| PartDesignFeature.AllowMultiSolid | src/Mod/PartDesign/App/Feature.cpp:72-75 | true iff there is a body and its SingleSolid is false |
| PartDesignFeature.GetSolid | src/Mod/PartDesign/App/Feature.cpp:77-91 | a null shape is an error; several solids are the whole shape iff multi-solid is allowed, else a RuntimeError; one solid gives it; none gives a null shape |
| PartDesignFeature.GetSolidResult | src/Mod/PartDesign/App/Feature.cpp:77-91 | a result is null only for a shape without solids and never has more solids than allowed |
| PartDesignFeature.BaseObject | src/Mod/PartDesign/App/Feature.cpp:108-130 | a Part::Feature link is returned; no link is "Base property not set"; a link of another kind is "No base feature linked"; silent mode gives null instead |
| PartDesignFeature.BaseObjectSilent | src/Mod/PartDesign/App/Feature.cpp:108-130 | silent mode never throws and gives null exactly where the loud one throws |
| PartDesignFeature.BaseShape | src/Mod/PartDesign/App/Feature.cpp:132-149 | a shape is returned only from a Part::Feature base, and it is neither null nor without solids |
| PartDesignFeature.BaseShapeOrder | src/Mod/PartDesign/App/Feature.cpp:132-149 | the checks come in order: shape binder, then null shape, then no solid, each with its own error; a base passing all three yields its own shape |
| PartDesignFeature.Construct | src/Mod/PartDesign/App/Feature.cpp:56-63 | BaseFeature and Placement become Hidden, and each reports the old status to its container when that changes ReadOnly or Hidden, as `setStatus` does; `_Body` gains the read-only, hidden, output and transient type bits; names, containers and `_Body`'s notices are outside the frame and stay |
| TechDrawViews.WatchedMustExecute | src/Mod/TechDraw/App/DrawViewDraft.cpp:70-86 | while restoring, the symbol's answer; otherwise 1 when a watched property is touched, else the symbol's answer |
| TechDrawViews.DraftMustExecute | src/Mod/TechDraw/App/DrawViewDraft.cpp:70-86 | as above over Source, LineWidth, FontSize, Direction, Color, LineStyle, LineSpacing |
| TechDrawViews.ArchMustExecute | src/Mod/TechDraw/App/DrawViewArch.cpp:75-91 | as above over Source, AllOn, RenderMode, ShowHidden, ShowFill, LineWidth, FontSize |
| TechDrawViews.UnwatchedIgnored | src/Mod/TechDraw/App/DrawViewDraft.cpp:70-86 | touching a property outside the watched set never changes the decision |
| TechDrawViews.ArchIgnoresFillSpaces | src/Mod/TechDraw/App/DrawViewArch.cpp:78-86 | touching FillSpaces never makes an Arch view recompute |
| TechDrawViews.WatchedDiffer | src/Mod/TechDraw/App/DrawViewArch.cpp:78-86 | AllOn triggers only the Arch view; Color triggers only the Draft view |
| TechDrawViews.Execute | src/Mod/TechDraw/App/DrawViewDraft.cpp:90-125 | not kept updated: nothing runs and StdReturn; otherwise the script runs iff there is a source; a raising script ends `execute` with its exception and DrawView::execute is not called; otherwise DrawView::execute comes last and gives the result |
| TechDrawViews.ExecuteOrder | src/Mod/TechDraw/App/DrawViewArch.cpp:94-126 | the script runs at most once and before DrawView::execute |
| TechDrawViews.JoinArgs | src/Mod/TechDraw/App/DrawViewDraft.cpp:104-117 | the arguments of the `getSVG` call, one comma between each two |
| TechDrawViews.DraftCallAsWritten | src/Mod/TechDraw/App/DrawViewDraft.cpp:99-118 | the Draft call imports and calls `Draft`; its first argument is the source and its second is empty |
| TechDrawViews.ArchCallAsWritten | src/Mod/TechDraw/App/DrawViewArch.cpp:103-120 | the Arch call imports one module and calls another (`ArchSectionPlane`, `ArchSelectionPlane`); its first argument is the source and its second is empty |
| TechDrawViews.AsWrittenDoubleComma | src/Mod/TechDraw/App/DrawViewDraft.cpp:105-106 | both argument lists read `<source>,,<options>` (the same code in DrawViewArch.cpp at lines 108-109) |
| TechDrawViews.AsWrittenScriptsRaise | src/Mod/TechDraw/App/DrawViewDraft.cpp:97-124 | both scripts raise whatever the options, so `execute` with a source ends in the exception and never calls DrawView::execute |
| TechDrawViews.DraftCall | src/Mod/TechDraw/App/DrawViewDraft.cpp:99-118 | the corrected Draft call: through the same `Draft` module, with the source and then the as-written arguments less the empty one |
| TechDrawViews.ArchCall | src/Mod/TechDraw/App/DrawViewArch.cpp:103-120 | the corrected Arch call: it calls the module it imports, not the one the as-written call names, with the empty argument dropped |
| TechDrawViews.CorrectedScriptsRun | src/Mod/TechDraw/App/DrawViewDraft.cpp:97-124 | with non-empty source and options the corrected scripts do not raise, and `execute` runs the script, then DrawView::execute, and returns its result |
| TechDrawViews.SvgFrame | src/Mod/TechDraw/App/DrawViewArch.cpp:128-140 | the head opens `<svg`, the tail `\\n</svg>` closes it, and neither holds a raw newline or a quote |
| GeoFeatureGroupViews.ClaimsOfMembers | src/Gui/ViewProviderGeoFeatureGroupExtension.cpp:133-143 | an object is claimed iff some contributing member's view provider claims it |
| GeoFeatureGroupViews.SilentMemberIgnored | src/Gui/ViewProviderGeoFeatureGroupExtension.cpp:133-143 | a geo-feature group, a member without view provider, or this view provider contribute no claims |
| GeoFeatureGroupViews.FilterCounts | src/Gui/ViewProviderGeoFeatureGroupExtension.cpp:146-152 | a kept entry keeps all its occurrences, a removed one keeps none |
| GeoFeatureGroupViews.FilterSubsequence | src/Gui/ViewProviderGeoFeatureGroupExtension.cpp:146-152 | the erase preserves order: the result is a subsequence of the group |
| GeoFeatureGroupViews.FilterIdempotent | src/Gui/ViewProviderGeoFeatureGroupExtension.cpp:146-152 | filtering twice is filtering once |
| GeoFeatureGroupViews.ClaimedSpec | src/Gui/ViewProviderGeoFeatureGroupExtension.cpp:133-152 | the claimed list is a subsequence of Group holding exactly the non-null, in-document, unclaimed members, each as often as in Group |
| GeoFeatureGroupViews.DisplayModes | src/Gui/ViewProviderGeoFeatureGroupExtension.cpp:91-98 | the parent's modes, then "Group" |
| GeoFeatureGroupViews.GeoFeatureGroupView.constructor | src/Gui/ViewProviderGeoFeatureGroupExtension.cpp:42-48 | a new extension has an empty cache that was never written |
| GeoFeatureGroupViews.GeoFeatureGroupView.ClaimChildren3D | src/Gui/ViewProviderGeoFeatureGroupExtension.cpp:56-66 | the existing children are kept and all of Group follows in order |
| GeoFeatureGroupViews.GeoFeatureGroupView.BuildClaimedChildren | src/Gui/ViewProviderGeoFeatureGroupExtension.cpp:124-155 | without the group extension nothing changes; otherwise the cache becomes the claimed list, written only when it differs |
| GeoFeatureGroupViews.GeoFeatureGroupView.ClaimChildren | src/Gui/ViewProviderGeoFeatureGroupExtension.cpp:68-75 | the cache is rebuilt and the claimed list is appended to the children |
| GeoFeatureGroupViews.CollectClaims | src/Gui/ViewProviderGeoFeatureGroupExtension.cpp:133-143 | the loop collects exactly the claims of the contributing members |
| GeoFeatureGroupViews.EraseHandled | src/Gui/ViewProviderGeoFeatureGroupExtension.cpp:146-152 | the in-place erase loop leaves exactly the filtered group |
| PathAreaOp.PyIndex | src/Mod/Path/PathScripts/PathAreaOp.py:937-946 | Python indexing: defined iff `-len <= i < len`, negative indices count from the end |
| PathAreaOp.IndexOf | src/Mod/Path/PathScripts/PathAreaOp.py:938-942 | the index of the first match, the length when there is none |
| PathAreaOp.RunAsWritten | src/Mod/Path/PathScripts/PathAreaOp.py:933-947 | tags and groups stay paired and the sentinel stays at the head |
| PathAreaOp.RunFailureStays | src/Mod/Path/PathScripts/PathAreaOp.py:935-947 | once a tuple raises IndexError the whole call raises it |
| PathAreaOp.SortTuplesByIndex | src/Mod/Path/PathScripts/PathAreaOp.py:926-952 | the loop computes the code as written, including its IndexError cases |
| PathAreaOp.FindTag | src/Mod/Path/PathScripts/PathAreaOp.py:938-942 | the search loop finds the first index of the tag, or the length |
| PathAreaOp.Grouped | src/Mod/Path/PathScripts/PathAreaOp.py:926-952 | one group per tag |
| PathAreaOp.TagsCover | src/Mod/Path/PathScripts/PathAreaOp.py:935-947 | a value is a tag iff some tuple carries it |
| PathAreaOp.TagsDistinct | src/Mod/Path/PathScripts/PathAreaOp.py:935-947 | no tag is listed twice |
| PathAreaOp.GroupOfCounts | src/Mod/Path/PathScripts/PathAreaOp.py:935-947 | a group holds every tuple of its tag, as often as the input does, and nothing else |
| PathAreaOp.GroupedPermutation | src/Mod/Path/PathScripts/PathAreaOp.py:935-951 | the groups together are a permutation of the input |
| PathAreaOp.GroupedSpec | src/Mod/Path/PathScripts/PathAreaOp.py:926-952 | distinct tags in first-seen order, one group per tag holding its tuples in input order, and nothing lost or duplicated |
| PathAreaOp.SortMatchesReference | src/Mod/Path/PathScripts/PathAreaOp.py:926-952 | with tag index 4 and no tag equal to 'X34.2', the code as written returns that grouping |
| PathAreaOp.SentinelTagLosesTuple | src/Mod/Path/PathScripts/PathAreaOp.py:933-950 | a tuple tagged 'X34.2' joins the sentinel group and is popped with it |
| PathAreaOp.MismatchedTagIndexFails | src/Mod/Path/PathScripts/PathAreaOp.py:936-947 | with tag index 0, a tuple whose index-0 tag is an earlier tuple's index-4 tag, while its own index-4 tag is new, raises IndexError |
| PathAreaOp.SortTuplesByTag | src/Mod/Path/PathScripts/PathAreaOp.py:926-952 | the corrected sort keeps tags and groups paired |
| PathAreaOp.SortTuplesByTagCorrect | src/Mod/Path/PathScripts/PathAreaOp.py:926-952 | the corrected sort succeeds iff every tuple has the tag index, and then gives the grouping by that index |
| PathAreaOp.MismatchedTagIndexGrouped | src/Mod/Path/PathScripts/PathAreaOp.py:936-947 | the corrected sort groups the failing input by its index-0 tags |
| PathAreaOp.WarnDisabledAxis | src/Mod/Path/PathScripts/PathAreaOp.py:954-964 | a warning iff axis X with rotation B(y) or axis Y with rotation A(x), and then a message naming the rotation the axis needs |
| PathAreaOp.WarnDisabledAxisMeaning | src/Mod/Path/PathScripts/PathAreaOp.py:954-964 | the warning means the axis needs the other rotation; Off and A & B never warn |
| PathAreaOp.CalculateStartFinalDepths | src/Mod/Path/PathScripts/PathAreaOp.py:912-924 | finDep is the larger of final depth and shape bottom; with rotation Off strDep is StartDepth if above finDep else stockTop; with rotation on strDep ≤ stockTop; the error is logged exactly when the start is not above finDep |
| PathAreaOp.DepthsOrdered | src/Mod/Path/PathScripts/PathAreaOp.py:912-924 | the start depth is above the final depth or is the stock top |
| PathAreaOp.Pad | src/Mod/Path/PathScripts/PathAreaOp.py:419-427 | a 2-tuple becomes (shape, isHole, 'otherOp', 0.0, 'S', StartDepth, FinalDepth); any other tuple is unchanged |
| PathAreaOp.PadIdempotent | src/Mod/Path/PathScripts/PathAreaOp.py:419-427 | padding twice is padding once |
| PathAreaOp.PadShapes | src/Mod/Path/PathScripts/PathAreaOp.py:419-427 | the loop pads every tuple and keeps the count |
| PathAreaOp.NextAxis | src/Mod/Path/PathScripts/PathAreaOp.py:451-456 | a current shape that is not a 7-tuple fails the unpack with ValueError; otherwise the next shape's index-4 entry (IndexError when it has none), or 'L' for the last shape |
| PathAreaOp.NextAxisOfPadded | src/Mod/Path/PathScripts/PathAreaOp.py:419-456 | after padding, a following 2-tuple gives 'S' when the current shape was a 2- or 7-tuple, else the unpack's ValueError |
| PathAreaOp.PaddedUnpacks | src/Mod/Path/PathScripts/PathAreaOp.py:419-452 | a padded 2-tuple always passes the 7-way unpack |
| PathAreaOp.NextAxisAfterReorder | src/Mod/Path/PathScripts/PathAreaOp.py:419-456 | after any reordering of the padded shapes (as `sort_jobs` makes), the next shape is one of the padded inputs, and one padded from a 2-tuple gives 'S' when the current shape unpacks, else ValueError |

## Left out

- Python and I/O: json, pickle, `toString`, the bodies of `fromString` and `loadPickle`, module import, GIL lockers, `PyStreambuf`; these are parameters or symbolic values.
- The Qt stream adapters (`ByteArrayOStreambuf`, `IODeviceOStreambuf`, `IODeviceIStreambuf`): thin wrappers over Qt devices.
- `Base::Writer`, `XMLReader`, the base64 codec and `Writer::addFile`: not shown. The encoder is a function parameter, and the side-file name is taken as given.
- Integer streaming in `Stream.h` is not part of this model. The `uint32_t` length is taken as four little-endian bytes, and the count is read as an unsigned decimal without a sign.
- A null `const char*` passed to `operator<<`: C++ undefined behaviour.
- `Property::Copy`/`Paste` and the path-value hooks: they forward to code that is not shown.
- `PropertyContainer` is not part of this model. The constructor's status effect on `_Body` assumes that adding a property with a type syncs its mirror bits.
- The GUI wiring of the view provider (`extensionAttach`, `extensionSetDisplayMode`, `extensionUpdateData` and their signal connections): Coin and Qt glue.
- TechDraw: the formatting of the numbers and strings in the command `execute` builds, and the assignment to `Symbol`. The model keeps the steps that run, the modules the script imports and calls, and the list of arguments to `getSVG`.
- FeaturePython.CallSafe, ScriptSafe: the nested-call grammar cannot reassign `Proxy` inside a hook. In the source that re-runs `init` through `onChanged` (FeaturePython.h:305-307), which rewrites the AllowRecursive bits; "never changes an AllowRecursive bit" is proved only for calls that do not reassign `Proxy`.
- TechDrawViews.Execute: whether `runString` throws is an input (`scriptRaises`), because Interpreter.cpp is not part of this model; `ScriptRaises` gives that input for a modelled call.
- `PathUtils.sort_jobs` (PathAreaOp.py:428-437) is not part of this model. The order it picks is left open: NextAxisAfterReorder holds for every reordering of the padded shapes.
- PropertyLists.XmlName: the debug-build `assert(false)` for a name without `::` is not modelled; the name is returned whole, as in a release build.
- PropertyPythonObject.CDataSet: `getAttributeAsInteger` is not part of this model. "cdata" counts as set when its text is neither empty nor "0"; texts such as "00" or "x", which read as 0, are not modelled.
- Streams.BinaryRead: with fewer than four length bytes the source resizes the string to an indeterminate length; the model keeps the string's prior value.
- Geometry in PartDesign and Path: OpenCascade calls, rotation analysis, clones, message boxes, default values.
- `opExecute` assigns `nextAxis` before its loop (PathAreaOp.py:442-447), and the loop overwrites the value. Only the loop's choice is modelled.
- Python equality between numbers of different types (`1 == 1.0 == True`) is not modelled: two values are equal only when they have the same constructor.
- PathAreaOp.WarnDisabledAxis: the warning is the untranslated text; `translate` and the log call are not modelled.
- PropertyPythonObject.DecodeValue: a trailing backslash reads past the end in the source and is excluded by the precondition.
- PropertyPythonObject.Select: the importer is a flag; a failed import is modelled as the object becoming None.
- GeoFeatureGroupViews.GeoFeatureGroupView.ClaimChildren: requires the group extension, because the source dereferences it without a check.
- StreamBuffers.ByteCursor: `_beg` is 0, so every offset is from the start of the buffer.
- FeaturePython.TriStateOverride, VisibilityOverride, CanLoadPartialOverride, HandledOverride: the proxy's "skipped" value is taken as the override's fallback sentinel, because FeaturePython.cpp is not part of this model.

## Findings

| source | as written | input that shows it | evidently intended | confidence | as-written member | corrected member |
|---|---|---|---|---|---|---|
| src/Base/Stream.cpp:116-120 | on CR LF inside one of the counted lines, the text reader breaks without putting the LF | the record "1:a\nb\n" with its line ends turned into CR LF reads back as "ab" | CR LF read as LF, as the comment says | not executed | Streams.CrlfLineLosesNewline | Streams.CrlfRoundTripFixed |
| src/Base/Stream.cpp:246-252, 667-673 | `pbackfail` compares `ch` with the buffer's `char`, which is negative above 127 where `char` is signed | the byte 200 just read, put back as 200 with signed `char` | the comparison made on the unsigned byte, as `sputbackc` passes it | not executed | StreamBuffers.PutBackHighByteFails | StreamBuffers.PutBackUndoesRead |
| src/Mod/Path/PathScripts/PathAreaOp.py:933-950 | a tuple tagged 'X34.2' is grouped with the sentinel and popped with it | one tuple with tag 'X34.2' at index 4 | every tuple kept in the result | not executed | PathAreaOp.SentinelTagLosesTuple | PathAreaOp.SortTuplesByTagCorrect |
| src/Mod/Path/PathScripts/PathAreaOp.py:936-947 | membership is tested with `tup[tagIdx]` but the search and the new tag use `tup[4]` | tag index 0 with tuples ("p", …, "q") then ("q", …, "r") raises IndexError | the tag index used throughout | not executed | PathAreaOp.MismatchedTagIndexFails | PathAreaOp.SortTuplesByTagCorrect |
| src/Mod/TechDraw/App/DrawViewDraft.cpp:105-106 | the source argument is followed by "," and the first option starts with ",", so the call reads `getSVG(<source>,,scale=…)` | any Draft view that is kept updated and has a Source | one comma between the source and `scale=` | not executed | TechDrawViews.AsWrittenScriptsRaise | TechDrawViews.CorrectedScriptsRun |
| src/Mod/TechDraw/App/DrawViewArch.cpp:103-109 | the script imports `ArchSectionPlane` but calls `ArchSelectionPlane.getSVG`, with the same `,,` before `allOn=` | any Arch view that is kept updated and has a Source | `ArchSectionPlane.getSVG(<source>,allOn=…)` | not executed | TechDrawViews.AsWrittenScriptsRaise | TechDrawViews.CorrectedScriptsRun |
