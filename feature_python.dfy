/**
  The scripting-proxy bridge of FeaturePython.h: the fixed list of hooks a
  proxy may implement, the per-hook `Calling` / `AllowRecursive` flags that
  `init` sets and the call guard holds, and the way each `FeaturePythonT`
  override combines the proxy's answer with the native one.

  The proxy is an oracle. For `init` it is the set of its attributes (is
  each callable, is it true); during a hook call it is a script of further
  hook calls the hook makes on the same object, so that re-entrancy can be
  followed. For the overrides it is the value the implementation object
  returns, which is the hook's "unhandled" value when the call was skipped.
*/
module FeaturePython {

  /** The hooks of FC_PY_FEATURE_PYTHON, in declaration order. */
  datatype Hook =
    | Execute | MustExecute | OnBeforeChange | OnBeforeChangeLabel | OnChanged
    | OnDocumentRestored | GetViewProviderName | GetSubObject | GetSubObjects
    | GetLinkedObject | CanLinkProperties | AllowDuplicateLabel | RedirectSubName
    | CanLoadPartial | HasChildElement | IsElementVisible | SetElementVisible
  {
    /** The attribute name the proxy is asked for. */
    function Name(): string {
      match this
      case Execute => "execute"
      case MustExecute => "mustExecute"
      case OnBeforeChange => "onBeforeChange"
      case OnBeforeChangeLabel => "onBeforeChangeLabel"
      case OnChanged => "onChanged"
      case OnDocumentRestored => "onDocumentRestored"
      case GetViewProviderName => "getViewProviderName"
      case GetSubObject => "getSubObject"
      case GetSubObjects => "getSubObjects"
      case GetLinkedObject => "getLinkedObject"
      case CanLinkProperties => "canLinkProperties"
      case AllowDuplicateLabel => "allowDuplicateLabel"
      case RedirectSubName => "redirectSubName"
      case CanLoadPartial => "canLoadPartial"
      case HasChildElement => "hasChildElement"
      case IsElementVisible => "isElementVisible"
      case SetElementVisible => "setElementVisible"
    }
  }

  const AllHooks: seq<Hook> := [
    Execute, MustExecute, OnBeforeChange, OnBeforeChangeLabel, OnChanged,
    OnDocumentRestored, GetViewProviderName, GetSubObject, GetSubObjects,
    GetLinkedObject, CanLinkProperties, AllowDuplicateLabel, RedirectSubName,
    CanLoadPartial, HasChildElement, IsElementVisible, SetElementVisible]

  lemma AllHooksListed(h: Hook)
    ensures h in AllHooks
  {
  }

  /** A bit of `_Flags`: each hook has a `FlagCalling_` and a `FlagAllowRecursive_` bit. */
  datatype Flag = Calling(hook: Hook) | AllowRecursive(hook: Hook)

  /** An attribute of the proxy object, as `init` examines it. */
  datatype Attribute = Attribute(callable: bool, truthy: bool)

  /** The proxy object: its attributes by name. */
  datatype Proxy = Proxy(attributes: map<string, Attribute>)
  {
    /** `FC_PY_GetCallable`: the hook is bound when the proxy has a callable attribute of its name. */
    predicate Binds(h: Hook) {
      h.Name() in attributes && attributes[h.Name()].callable
    }

    /** `__allow_recursive_<name>` is present and true. */
    predicate AllowsRecursion(h: Hook) {
      var a := "__allow_recursive_" + h.Name();
      a in attributes && attributes[a].truthy
    }
  }

  /**
    The flags after `init`: for each hook the proxy binds, AllowRecursive is
    the truth of its `__allow_recursive_` attribute (false when missing);
    every other bit is left as it was.
  */
  function InitFlags(flags: set<Flag>, proxy: Proxy): (r: set<Flag>)
    ensures forall h: Hook :: Calling(h) in r <==> Calling(h) in flags
    ensures forall h: Hook :: AllowRecursive(h) in r <==>
              if proxy.Binds(h) then proxy.AllowsRecursion(h) else AllowRecursive(h) in flags
  {
    var bound := set h | h in AllHooks && proxy.Binds(h);
    forall h: Hook ensures h in bound <==> proxy.Binds(h) { AllHooksListed(h); }
    (flags - set h | h in bound :: AllowRecursive(h))
      + set h | h in bound && proxy.AllowsRecursion(h) :: AllowRecursive(h)
  }

  /** One hook of the `init` loop keeps its invariant on the flags. */
  lemma InitStep(before: set<Flag>, prior: set<Flag>, after: set<Flag>, proxy: Proxy, done: seq<Hook>, h: Hook)
    requires forall g: Hook :: Calling(g) in prior <==> Calling(g) in before
    requires forall g: Hook :: AllowRecursive(g) in prior <==>
               if g in done && proxy.Binds(g) then proxy.AllowsRecursion(g) else AllowRecursive(g) in before
    requires proxy.Binds(h) ==> after == (if proxy.AllowsRecursion(h) then prior + {AllowRecursive(h)}
                                          else prior - {AllowRecursive(h)})
    requires !proxy.Binds(h) ==> after == prior
    ensures forall g: Hook :: Calling(g) in after <==> Calling(g) in before
    ensures forall g: Hook :: AllowRecursive(g) in after <==>
              if g in done + [h] && proxy.Binds(g) then proxy.AllowsRecursion(g) else AllowRecursive(g) in before
  {
    forall g: Hook ensures g in done + [h] <==> g in done || g == h {
    }
  }

  /** Flags that agree with `InitFlags` bit by bit, over the hooks of `AllHooks`, are `InitFlags`. */
  lemma InitFlagsAre(before: set<Flag>, after: set<Flag>, proxy: Proxy)
    requires forall h: Hook :: Calling(h) in after <==> Calling(h) in before
    requires forall h: Hook :: AllowRecursive(h) in after <==>
               if h in AllHooks && proxy.Binds(h) then proxy.AllowsRecursion(h) else AllowRecursive(h) in before
    ensures after == InitFlags(before, proxy)
  {
    var expected := InitFlags(before, proxy);
    forall f: Flag ensures f in after <==> f in expected {
      AllHooksListed(f.hook);
    }
  }

  /** `_FC_PY_CALL_CHECK`: a call is skipped when the hook is unbound, or already running and not re-entrant. */
  predicate Skipped(flags: set<Flag>, bound: set<Hook>, h: Hook) {
    (AllowRecursive(h) !in flags && Calling(h) in flags) || h !in bound
  }

  /** While it runs, a proxy hook may call further hooks on the same object. */
  datatype Script = Script(calls: seq<Nested>)
  datatype Nested = Nested(hook: Hook, inner: Script)

  /** A hook body that ran, with the hooks that were already running when it started. */
  datatype Event = Ran(hook: Hook, running: seq<Hook>)

  /**
    One guarded call: skipped, or run with its Calling bit set by the
    `BitsetLocker` guard, which resets the bit when the call ends.
  */
  function CallSpec(flags: set<Flag>, bound: set<Hook>, running: seq<Hook>, n: Nested): (set<Flag>, seq<Event>)
    decreases n
  {
    if Skipped(flags, bound, n.hook) then (flags, [])
    else
      var inner := ScriptSpec(flags + {Calling(n.hook)}, bound, running + [n.hook], n.inner, 0);
      (inner.0 - {Calling(n.hook)}, [Ran(n.hook, running)] + inner.1)
  }

  /** The calls of a script from the `i`-th on, one after the other. */
  function ScriptSpec(flags: set<Flag>, bound: set<Hook>, running: seq<Hook>, s: Script, i: nat): (set<Flag>, seq<Event>)
    decreases s, |s.calls| - i
  {
    if i >= |s.calls| then (flags, [])
    else
      var first := CallSpec(flags, bound, running, s.calls[i]);
      var rest := ScriptSpec(first.0, bound, running, s, i + 1);
      (rest.0, first.1 + rest.1)
  }

  /** Every running hook that is not re-entrant has its Calling bit set. */
  predicate Guarded(flags: set<Flag>, running: seq<Hook>) {
    forall x :: x in running && AllowRecursive(x) !in flags ==> Calling(x) in flags
  }

  /** No hook that forbids recursion ever runs while it is already running. */
  predicate NoForbiddenReentry(flags: set<Flag>, events: seq<Event>) {
    forall k :: 0 <= k < |events| && events[k].hook in events[k].running ==>
      AllowRecursive(events[k].hook) in flags
  }

  /**
    The guard keeps the flag word sound: a call never leaves a bit set that
    was clear, never changes an AllowRecursive bit, keeps the running hooks
    guarded, and no non-re-entrant hook runs nested inside itself.
  */
  lemma {:induction false} CallSafe(flags: set<Flag>, bound: set<Hook>, running: seq<Hook>, n: Nested)
    requires Guarded(flags, running)
    ensures var r := CallSpec(flags, bound, running, n);
            r.0 <= flags &&
            (forall h :: AllowRecursive(h) in r.0 <==> AllowRecursive(h) in flags) &&
            Guarded(r.0, running) &&
            NoForbiddenReentry(flags, r.1)
    decreases n
  {
    if !Skipped(flags, bound, n.hook) {
      var f := flags + {Calling(n.hook)};
      var run := running + [n.hook];
      assert Guarded(f, run);
      ScriptSafe(f, bound, run, n.inner, 0);
      var inner := ScriptSpec(f, bound, run, n.inner, 0);
      var r := CallSpec(flags, bound, running, n);
      assert r.1 == [Ran(n.hook, running)] + inner.1;
      forall x | x in running && AllowRecursive(x) !in r.0 ensures Calling(x) in r.0 {
        assert x in run;
        assert x != n.hook;
      }
      forall k | 0 <= k < |r.1| && r.1[k].hook in r.1[k].running
        ensures AllowRecursive(r.1[k].hook) in flags
      {
        if k > 0 {
          assert r.1[k] == inner.1[k - 1];
        }
      }
    }
  }

  lemma {:induction false} ScriptSafe(flags: set<Flag>, bound: set<Hook>, running: seq<Hook>, s: Script, i: nat)
    requires Guarded(flags, running)
    ensures var r := ScriptSpec(flags, bound, running, s, i);
            r.0 <= flags &&
            (forall h :: AllowRecursive(h) in r.0 <==> AllowRecursive(h) in flags) &&
            Guarded(r.0, running) &&
            NoForbiddenReentry(flags, r.1)
    decreases s, |s.calls| - i
  {
    if i < |s.calls| {
      var first := CallSpec(flags, bound, running, s.calls[i]);
      CallSafe(flags, bound, running, s.calls[i]);
      ScriptSafe(first.0, bound, running, s, i + 1);
      var rest := ScriptSpec(first.0, bound, running, s, i + 1);
      var r := ScriptSpec(flags, bound, running, s, i);
      assert r.1 == first.1 + rest.1;
      forall k | 0 <= k < |r.1| && r.1[k].hook in r.1[k].running
        ensures AllowRecursive(r.1[k].hook) in flags
      {
        if k >= |first.1| {
          assert r.1[k] == rest.1[k - |first.1|];
        } else {
          assert r.1[k] == first.1[k];
        }
      }
    }
  }

  /** A call from native code, with no hook running, leaves no Calling bit behind. */
  lemma TopLevelCallClears(bound: set<Hook>, n: Nested, allowed: set<Hook>)
    ensures var flags := set h | h in allowed :: AllowRecursive(h);
            CallSpec(flags, bound, [], n).0 == flags
  {
    var flags := set h | h in allowed :: AllowRecursive(h);
    CallSafe(flags, bound, [], n);
    var r := CallSpec(flags, bound, [], n).0;
    forall f | f in flags ensures f in r {
      assert f.AllowRecursive?;
    }
  }

  /** The state `FeaturePythonImp` keeps: which hooks are bound, the flag word, and the hook bodies that ran. */
  class FeaturePythonImp {
    var bound: set<Hook>
    var flags: set<Flag>
    var events: seq<Event>

    constructor ()
      ensures bound == {} && flags == {} && events == []
    {
      bound := {};
      flags := {};
      events := [];
    }

    /** `init(pyobj)`: binds each hook the proxy provides and reads its re-entrancy attribute. */
    method Init(proxy: Proxy)
      modifies this`bound, this`flags
      ensures bound == set h | h in AllHooks && proxy.Binds(h)
      ensures flags == InitFlags(old(flags), proxy)
    {
      var i := 0;
      bound := {};
      while i < |AllHooks|
        invariant 0 <= i <= |AllHooks|
        invariant bound == set h | h in AllHooks[..i] && proxy.Binds(h)
        invariant forall h: Hook :: Calling(h) in flags <==> Calling(h) in old(flags)
        invariant forall h: Hook :: AllowRecursive(h) in flags <==>
                    if h in AllHooks[..i] && proxy.Binds(h) then proxy.AllowsRecursion(h)
                    else AllowRecursive(h) in old(flags)
      {
        var h := AllHooks[i];
        ghost var prior := flags;
        assert AllHooks[..i + 1] == AllHooks[..i] + [h];
        if proxy.Binds(h) {
          bound := bound + {h};
          var attr := "__allow_recursive_" + h.Name();
          if attr !in proxy.attributes {
            flags := flags - {AllowRecursive(h)};
          } else if proxy.attributes[attr].truthy {
            flags := flags + {AllowRecursive(h)};
          } else {
            flags := flags - {AllowRecursive(h)};
          }
        }
        InitStep(old(flags), prior, flags, proxy, AllHooks[..i], h);
        i := i + 1;
      }
      assert AllHooks[..i] == AllHooks;
      InitFlagsAre(old(flags), flags, proxy);
    }

    /**
      A guarded hook call whose body, if it runs, makes the nested calls of
      its script.
    */
    method Call(n: Nested) returns (ran: bool)
      modifies this`flags, this`events
      ensures ran == !Skipped(old(flags), bound, n.hook)
      ensures (flags, events) == (CallSpec(old(flags), bound, [], n).0, old(events) + CallSpec(old(flags), bound, [], n).1)
    {
      ran := CallFrom([], n);
    }

    method CallFrom(running: seq<Hook>, n: Nested) returns (ran: bool)
      modifies this`flags, this`events
      ensures ran == !Skipped(old(flags), bound, n.hook)
      ensures flags == CallSpec(old(flags), bound, running, n).0
      ensures events == old(events) + CallSpec(old(flags), bound, running, n).1
      decreases n, 1
    {
      if (AllowRecursive(n.hook) !in flags && Calling(n.hook) in flags) || n.hook !in bound {
        return false;
      }
      flags := flags + {Calling(n.hook)};
      events := events + [Ran(n.hook, running)];
      RunScript(running + [n.hook], n.inner);
      flags := flags - {Calling(n.hook)};
      ran := true;
    }

    method RunScript(running: seq<Hook>, s: Script)
      modifies this`flags, this`events
      ensures flags == ScriptSpec(old(flags), bound, running, s, 0).0
      ensures events == old(events) + ScriptSpec(old(flags), bound, running, s, 0).1
      decreases s, 0
    {
      var i := 0;
      ghost var done: seq<Event> := [];
      assert ScriptSpec(old(flags), bound, running, s, 0).1 == done + ScriptSpec(flags, bound, running, s, 0).1;
      while i < |s.calls|
        invariant 0 <= i <= |s.calls|
        invariant events == old(events) + done
        invariant ScriptSpec(old(flags), bound, running, s, 0).0 == ScriptSpec(flags, bound, running, s, i).0
        invariant ScriptSpec(old(flags), bound, running, s, 0).1 == done + ScriptSpec(flags, bound, running, s, i).1
      {
        ghost var first := CallSpec(flags, bound, running, s.calls[i]);
        ghost var rest := ScriptSpec(first.0, bound, running, s, i + 1);
        assert ScriptSpec(flags, bound, running, s, i).1 == first.1 + rest.1;
        var _ := CallFrom(running, s.calls[i]);
        assert done + (first.1 + rest.1) == (done + first.1) + rest.1;
        done := done + first.1;
        i := i + 1;
      }
    }
  }

  /** Which side an override consults, in order. */
  datatype Side = AskProxy | AskNative | InitProxy

  /** An override's answer together with the sides it consulted. */
  datatype Dispatch<T> = Dispatch(value: T, asked: seq<Side>)

  /**
    `mustExecute`: 1 for a touched object without asking anyone; otherwise a
    non-zero native answer; otherwise 1 or 0 from the proxy.
  */
  function MustExecuteOverride(touched: bool, native: int, proxy: bool): (r: Dispatch<int>)
    ensures touched ==> r == Dispatch(1, [])
    ensures !touched && native != 0 ==> r == Dispatch(native, [AskNative])
    ensures !touched && native == 0 ==> r == Dispatch(if proxy then 1 else 0, [AskNative, AskProxy])
  {
    if touched then Dispatch(1, [])
    else if native != 0 then Dispatch(native, [AskNative])
    else Dispatch(if proxy then 1 else 0, [AskNative, AskProxy])
  }

  /** mustExecute is non-zero exactly when the object is touched, the native class asks, or the proxy asks. */
  lemma MustExecuteNonZero(touched: bool, native: int, proxy: bool)
    ensures MustExecuteOverride(touched, native, proxy).value != 0 <==> touched || native != 0 || proxy
  {
  }

  /** What `DocumentObject::execute` reports. */
  datatype ExecReturn = StdReturn | ExecFailed(message: string)

  /** The implementation object's `execute()`: handled, unhandled (false), or a Base::Exception. */
  datatype ProxyExecute = Handled | Unhandled | ProxyRaised(message: string)

  /** The native `execute()`: a report, or a Base::Exception. */
  datatype NativeExecute = NativeReturned(report: ExecReturn) | NativeRaised(message: string)

  /**
    `execute`: a handled proxy call gives StdReturn and the native one is not
    made; an unhandled one gives the native report; an exception from either
    becomes a failure carrying its message.
  */
  function ExecuteOverride(proxy: ProxyExecute, native: NativeExecute): (r: Dispatch<ExecReturn>)
    ensures proxy.Handled? ==> r == Dispatch(StdReturn, [AskProxy])
    ensures proxy.ProxyRaised? ==> r == Dispatch(ExecFailed(proxy.message), [AskProxy])
    ensures proxy.Unhandled? ==> r.asked == [AskProxy, AskNative]
    ensures proxy.Unhandled? ==>
              r.value == match native
                         case NativeReturned(rep) => rep
                         case NativeRaised(m) => ExecFailed(m)
  {
    match proxy
    case ProxyRaised(m) => Dispatch(ExecFailed(m), [AskProxy])
    case Handled => Dispatch(StdReturn, [AskProxy])
    case Unhandled =>
      match native
      case NativeRaised(m) => Dispatch(ExecFailed(m), [AskProxy, AskNative])
      case NativeReturned(rep) => Dispatch(rep, [AskProxy, AskNative])
  }

  /** `getViewProviderNameOverride`: a non-empty proxy name wins over the native one. */
  function ViewProviderNameOverride(proxy: string, native: string): (r: Dispatch<string>)
    ensures proxy != "" ==> r == Dispatch(proxy, [AskProxy])
    ensures proxy == "" ==> r == Dispatch(native, [AskProxy, AskNative])
  {
    if |proxy| > 0 then Dispatch(proxy, [AskProxy]) else Dispatch(native, [AskProxy, AskNative])
  }

  /**
    `getSubObject`, `getSubObjects` and `getLinkedObject`: the proxy's result
    when it reports the call handled, the native one otherwise.
  */
  function HandledOverride<T>(handled: bool, proxyResult: T, native: T): (r: Dispatch<T>)
    ensures handled ==> r == Dispatch(proxyResult, [AskProxy])
    ensures !handled ==> r == Dispatch(native, [AskProxy, AskNative])
  {
    if handled then Dispatch(proxyResult, [AskProxy]) else Dispatch(native, [AskProxy, AskNative])
  }

  /**
    `hasChildElement`, `canLinkProperties`, `allowDuplicateLabel`: a negative
    proxy answer defers to native, any other is read as a boolean.
  */
  function TriStateOverride(proxy: int, native: bool): (r: Dispatch<bool>)
    ensures proxy < 0 ==> r == Dispatch(native, [AskProxy, AskNative])
    ensures proxy >= 0 ==> r == Dispatch(proxy != 0, [AskProxy])
  {
    if proxy < 0 then Dispatch(native, [AskProxy, AskNative]) else Dispatch(proxy != 0, [AskProxy])
  }

  /** `isElementVisible`, `setElementVisible`: -2 from the proxy defers to native, any other value is returned. */
  function VisibilityOverride(proxy: int, native: int): (r: Dispatch<int>)
    ensures proxy == -2 ==> r == Dispatch(native, [AskProxy, AskNative])
    ensures proxy != -2 ==> r == Dispatch(proxy, [AskProxy])
  {
    if proxy == -2 then Dispatch(native, [AskProxy, AskNative]) else Dispatch(proxy, [AskProxy])
  }

  /** `canLoadPartial`: a proxy answer of 0 or more is returned, a negative one defers to native. */
  function CanLoadPartialOverride(proxy: int, native: int): (r: Dispatch<int>)
    ensures proxy >= 0 ==> r == Dispatch(proxy, [AskProxy])
    ensures proxy < 0 ==> r == Dispatch(native, [AskProxy, AskNative])
  {
    if proxy >= 0 then Dispatch(proxy, [AskProxy]) else Dispatch(native, [AskProxy, AskNative])
  }

  /** `redirectSubName`: `proxy || native`, so native is asked only when the proxy says false. */
  function RedirectSubNameOverride(proxy: bool, native: bool): (r: Dispatch<bool>)
    ensures r.value <==> proxy || native
    ensures r.asked == if proxy then [AskProxy] else [AskProxy, AskNative]
  {
    if proxy then Dispatch(true, [AskProxy]) else Dispatch(native, [AskProxy, AskNative])
  }

  /** `onBeforeChangeLabel`: native runs only when the proxy did not take the change (returned false). */
  function OnBeforeChangeLabelOrder(proxyTook: bool): (asked: seq<Side>)
    ensures AskNative in asked <==> !proxyTook
    ensures |asked| > 0 && asked[0] == AskProxy
  {
    if proxyTook then [AskProxy] else [AskProxy, AskNative]
  }

  /** `onBeforeChange`: native first, then the proxy. */
  const OnBeforeChangeOrder: seq<Side> := [AskNative, AskProxy]

  /** `onDocumentRestored`: the proxy first, then native. */
  const OnDocumentRestoredOrder: seq<Side> := [AskProxy, AskNative]

  /**
    `onChanged(prop)`: a change of the Proxy property first re-runs `init`;
    then the proxy's `onChanged`, then the native one.
  */
  function OnChangedOrder(isProxyProperty: bool): (asked: seq<Side>)
    ensures isProxyProperty ==> asked == [InitProxy, AskProxy, AskNative]
    ensures !isProxyProperty ==> asked == [AskProxy, AskNative]
  {
    (if isProxyProperty then [InitProxy] else []) + [AskProxy, AskNative]
  }

  /**
    What the implementation object returns for a hook call that is skipped:
    the value each override reads as "unhandled".
  */
  function SkippedInt(h: Hook): int {
    match h
    case IsElementVisible => -2
    case SetElementVisible => -2
    case _ => -1
  }

  /**
    A proxy hook that is skipped (missing, or blocked as re-entrant) leaves
    every override with the native answer.
  */
  lemma SkippedFallsBack(native: bool, nativeInt: int, nativeName: string, touched: bool, nativeMust: int)
    ensures TriStateOverride(SkippedInt(HasChildElement), native).value == native
    ensures TriStateOverride(SkippedInt(CanLinkProperties), native).value == native
    ensures TriStateOverride(SkippedInt(AllowDuplicateLabel), native).value == native
    ensures VisibilityOverride(SkippedInt(IsElementVisible), nativeInt).value == nativeInt
    ensures VisibilityOverride(SkippedInt(SetElementVisible), nativeInt).value == nativeInt
    ensures CanLoadPartialOverride(SkippedInt(CanLoadPartial), nativeInt).value == nativeInt
    ensures RedirectSubNameOverride(false, native).value == native
    ensures ViewProviderNameOverride("", nativeName).value == nativeName
    ensures !touched ==> MustExecuteOverride(touched, nativeMust, false).value == nativeMust
  {
  }
}
