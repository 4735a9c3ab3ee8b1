/**
  The list and decision helpers of PathScripts.PathAreaOp.ObjectOp: grouping
  shape tuples by an orientation tag, the warning for a disabled rotation
  axis, the start and final depths of a face, the padding of 2-tuples from
  other operations, and the axis of the next shape.

  A Python tuple is a sequence of `Value`s; only the kinds of value the code
  compares or builds are distinguished. Python's indexing is modelled with
  its negative indices and its IndexError.
*/
module PathAreaOp {
  import opened Wrappers

  datatype Value = Str(s: string) | Num(x: real) | Flag(b: bool) | ShapeRef(id: nat)

  type Tuple = seq<Value>

  datatype PyError = IndexError | ValueError

  /** `t[idx]` in Python: negative indices count from the end; outside the range it fails. */
  function PyIndex(t: Tuple, idx: int): (r: Option<Value>)
    ensures r.Some? <==> -|t| <= idx < |t|
    ensures 0 <= idx < |t| ==> r == Some(t[idx])
    ensures -|t| <= idx < 0 ==> r == Some(t[|t| + idx])
  {
    if 0 <= idx < |t| then Some(t[idx])
    else if -|t| <= idx < 0 then Some(t[|t| + idx])
    else None
  }

  /** The tag list and the group list `sortTuplesByIndex` returns. */
  datatype Grouping = Grouping(tags: seq<Value>, groups: seq<seq<Tuple>>)

  /** The head entries `sortTuplesByIndex` starts with and pops at the end. */
  const SentinelTag: Value := Str("X34.2")
  const SentinelTuple: Tuple := [Num(2.3), Num(3.4), Str("X")]

  /** Where the `for orn in TagList` search stops: the first index holding `v`, or the length. */
  function IndexOf(tags: seq<Value>, v: Value): (i: nat)
    ensures i <= |tags|
    ensures i < |tags| ==> tags[i] == v
    ensures v in tags <==> i < |tags|
    ensures forall j :: 0 <= j < i ==> tags[j] != v
    decreases |tags|
  {
    if |tags| == 0 then 0 else if tags[0] == v then 0 else 1 + IndexOf(tags[1..], v)
  }

  /**
    One turn of the loop of `sortTuplesByIndex`, as written: membership is
    tested with `tup[tagIdx]`, but the group is searched for and the new
    tag taken with `tup[4]`. A tuple too short for either index fails (both
    branches read `tup[4]`), and so does a search that finds nothing,
    which indexes the group list one past its end.
  */
  function InsertAsWritten(g: Grouping, tup: Tuple, tagIdx: int): (r: Result<Grouping, PyError>)
    requires |g.tags| == |g.groups|
    ensures r.Failure? ==> r.error == IndexError
  {
    match PyIndex(tup, tagIdx)
    case None => Failure(IndexError)
    case Some(key) =>
      if |tup| <= 4 then Failure(IndexError)
      else if key in g.tags then
        var i := IndexOf(g.tags, tup[4]);
        if i < |g.groups| then Success(Grouping(g.tags, g.groups[i := g.groups[i] + [tup]]))
        else Failure(IndexError)
      else Success(Grouping(g.tags + [tup[4]], g.groups + [[tup]]))
  }

  /** The tag and group lists after the loop has visited `tuples`, sentinels included. */
  function RunAsWritten(tuples: seq<Tuple>, tagIdx: int): (r: Result<Grouping, PyError>)
    ensures r.Success? ==> |r.value.tags| == |r.value.groups| >= 1
    ensures r.Failure? ==> r.error == IndexError
    decreases |tuples|
  {
    if |tuples| == 0 then Success(Grouping([SentinelTag], [[SentinelTuple]]))
    else
      match RunAsWritten(tuples[..|tuples| - 1], tagIdx)
      case Failure(e) => Failure(e)
      case Success(g) => InsertAsWritten(g, tuples[|tuples| - 1], tagIdx)
  }

  /** `sortTuplesByIndex(TupleList, tagIdx)` as written: the loop, then both sentinels popped. */
  function SortAsWritten(tuples: seq<Tuple>, tagIdx: int): Result<Grouping, PyError> {
    match RunAsWritten(tuples, tagIdx)
    case Failure(e) => Failure(e)
    case Success(g) => Success(Grouping(g.tags[1..], g.groups[1..]))
  }

  /** Once a turn of the loop has failed, the whole call fails. */
  lemma {:induction false} RunFailureStays(tuples: seq<Tuple>, tagIdx: int, n: nat)
    requires n <= |tuples| && RunAsWritten(tuples[..n], tagIdx).Failure?
    ensures RunAsWritten(tuples, tagIdx) == Failure(IndexError)
    decreases |tuples| - n
  {
    if n < |tuples| {
      assert tuples[..n + 1][..n] == tuples[..n];
      assert RunAsWritten(tuples[..n + 1], tagIdx).Failure?;
      RunFailureStays(tuples, tagIdx, n + 1);
    } else {
      assert tuples[..n] == tuples;
      var r := RunAsWritten(tuples, tagIdx);
      assert r == Failure(r.error) && r.error == IndexError;
    }
  }

  /** `sortTuplesByIndex`, with its two loops. */
  method SortTuplesByIndex(tupleList: seq<Tuple>, tagIdx: int) returns (r: Result<Grouping, PyError>)
    ensures r == SortAsWritten(tupleList, tagIdx)
  {
    var tagList := [SentinelTag];
    var groupList := [[SentinelTuple]];
    var n := 0;
    while n < |tupleList|
      invariant 0 <= n <= |tupleList|
      invariant RunAsWritten(tupleList[..n], tagIdx) == Success(Grouping(tagList, groupList))
    {
      var tup := tupleList[n];
      assert tupleList[..n + 1][..n] == tupleList[..n];
      var key := PyIndex(tup, tagIdx);
      if key.None? || |tup| <= 4 {
        RunFailureStays(tupleList, tagIdx, n + 1);
        return Failure(IndexError);
      }
      if key.value in tagList {
        var i := FindTag(tagList, tup[4]);
        if i >= |groupList| {
          RunFailureStays(tupleList, tagIdx, n + 1);
          return Failure(IndexError);
        }
        groupList := groupList[i := groupList[i] + [tup]];
      } else {
        tagList := tagList + [tup[4]];
        groupList := groupList + [[tup]];
      }
      n := n + 1;
    }
    assert tupleList[..n] == tupleList;
    r := Success(Grouping(tagList[1..], groupList[1..]));
  }

  /** The inner search loop of `sortTuplesByIndex`. */
  method FindTag(tagList: seq<Value>, tag: Value) returns (i: nat)
    ensures i == IndexOf(tagList, tag)
  {
    i := 0;
    while i < |tagList|
      invariant i <= |tagList|
      invariant forall j :: 0 <= j < i ==> tagList[j] != tag
    {
      if tagList[i] == tag {
        break;
      }
      i := i + 1;
    }
    IndexOfIs(tagList, tag, i);
  }

  /** The first index holding `v` (or the length when there is none) is `IndexOf`. */
  lemma IndexOfIs(tags: seq<Value>, v: Value, i: nat)
    requires i <= |tags| && (i < |tags| ==> tags[i] == v)
    requires forall j :: 0 <= j < i ==> tags[j] != v
    ensures i == IndexOf(tags, v)
  {
  }

  // ---------------------------------------------------------------------
  // The grouping `sortTuplesByIndex` promises, defined independently.

  /** Every tuple has an entry at key index `k`. */
  predicate KeysDefined(tuples: seq<Tuple>, k: nat) {
    forall j :: 0 <= j < |tuples| ==> k < |tuples[j]|
  }

  /** The distinct keys of `tuples`, in the order they first occur. */
  function Tags(tuples: seq<Tuple>, k: nat): seq<Value>
    requires KeysDefined(tuples, k)
    decreases |tuples|
  {
    if |tuples| == 0 then []
    else
      var init := Tags(tuples[..|tuples| - 1], k);
      var v := tuples[|tuples| - 1][k];
      if v in init then init else init + [v]
  }

  /** The tuples whose key is `v`, in input order. */
  function GroupOf(tuples: seq<Tuple>, k: nat, v: Value): seq<Tuple>
    requires KeysDefined(tuples, k)
    decreases |tuples|
  {
    if |tuples| == 0 then []
    else
      var last := tuples[|tuples| - 1];
      GroupOf(tuples[..|tuples| - 1], k, v) + (if last[k] == v then [last] else [])
  }

  /** The reference result: the tags, and for each tag its group. */
  function Grouped(tuples: seq<Tuple>, k: nat): (r: Grouping)
    requires KeysDefined(tuples, k)
    ensures |r.tags| == |r.groups|
  {
    var tags := Tags(tuples, k);
    Grouping(tags, seq(|tags|, i requires 0 <= i < |tags| => GroupOf(tuples, k, tags[i])))
  }

  /** The groups one after the other. */
  function Flatten(groups: seq<seq<Tuple>>): seq<Tuple>
    decreases |groups|
  {
    if |groups| == 0 then [] else Flatten(groups[..|groups| - 1]) + groups[|groups| - 1]
  }

  /** Put tuple `x` with key `key` into its group, opening a new group for a new key. */
  function AddToGroups(g: Grouping, key: Value, x: Tuple): (r: Grouping)
    requires |g.tags| == |g.groups|
    ensures |r.tags| == |r.groups|
  {
    if key in g.tags then
      var i := IndexOf(g.tags, key);
      Grouping(g.tags, g.groups[i := g.groups[i] + [x]])
    else Grouping(g.tags + [key], g.groups + [[x]])
  }

  lemma KeysDefinedPrefix(tuples: seq<Tuple>, k: nat, n: nat)
    requires KeysDefined(tuples, k) && n <= |tuples|
    ensures KeysDefined(tuples[..n], k)
  {
  }

  /** The last tuple adds its key to the tags of the others. */
  lemma TagsStep(tuples: seq<Tuple>, k: nat, v: Value)
    requires KeysDefined(tuples, k) && |tuples| > 0
    ensures v in Tags(tuples, k) <==> v in Tags(tuples[..|tuples| - 1], k) || tuples[|tuples| - 1][k] == v
  {
  }

  /** A key is a tag exactly when some tuple carries it. */
  lemma {:induction false} TagsCover(tuples: seq<Tuple>, k: nat, v: Value)
    requires KeysDefined(tuples, k)
    ensures v in Tags(tuples, k) <==> exists j :: 0 <= j < |tuples| && tuples[j][k] == v
    decreases |tuples|
  {
    if |tuples| > 0 {
      var init := tuples[..|tuples| - 1];
      var last := tuples[|tuples| - 1];
      TagsCover(init, k, v);
      TagsStep(tuples, k, v);
      if v in Tags(tuples, k) {
        if last[k] == v {
          assert tuples[|tuples| - 1][k] == v;
        } else {
          var j :| 0 <= j < |init| && init[j][k] == v;
          assert tuples[j][k] == v;
        }
      } else {
        forall j | 0 <= j < |tuples| ensures tuples[j][k] != v {
          if j < |init| {
            assert tuples[j] == init[j];
          }
        }
      }
    }
  }

  /** No tag occurs twice. */
  lemma {:induction false} TagsDistinct(tuples: seq<Tuple>, k: nat)
    requires KeysDefined(tuples, k)
    ensures forall i, j :: 0 <= i < j < |Tags(tuples, k)| ==> Tags(tuples, k)[i] != Tags(tuples, k)[j]
    decreases |tuples|
  {
    if |tuples| > 0 {
      TagsDistinct(tuples[..|tuples| - 1], k);
    }
  }

  /** The tags of a prefix of the input are a prefix of the tags: tags come in first-occurrence order. */
  lemma {:induction false} TagsPrefix(tuples: seq<Tuple>, k: nat, n: nat)
    requires KeysDefined(tuples, k) && n <= |tuples|
    ensures Tags(tuples[..n], k) <= Tags(tuples, k)
    decreases |tuples|
  {
    if n < |tuples| {
      var init := tuples[..|tuples| - 1];
      TagsPrefix(init, k, n);
      assert init[..n] == tuples[..n];
    } else {
      assert tuples[..n] == tuples;
    }
  }

  /** A group holds the tuples with its key, each as often as in the input, and nothing else. */
  lemma {:induction false} GroupOfCounts(tuples: seq<Tuple>, k: nat, v: Value, y: Tuple)
    requires KeysDefined(tuples, k)
    ensures multiset(GroupOf(tuples, k, v))[y] == if k < |y| && y[k] == v then multiset(tuples)[y] else 0
    decreases |tuples|
  {
    if |tuples| > 0 {
      var init := tuples[..|tuples| - 1];
      var last := tuples[|tuples| - 1];
      var added: seq<Tuple> := if last[k] == v then [last] else [];
      GroupOfCounts(init, k, v, y);
      assert tuples == init + [last];
      assert multiset(tuples) == multiset(init) + multiset{last};
      assert GroupOf(tuples, k, v) == GroupOf(init, k, v) + added;
      assert multiset(GroupOf(tuples, k, v)) == multiset(GroupOf(init, k, v)) + multiset(added);
      if k < |y| && y[k] == v {
        assert multiset(added)[y] == multiset{last}[y];
      } else {
        assert multiset(added)[y] == 0;
      }
    }
  }

  /** No tuple carries a key that is not a tag. */
  lemma GroupOfEmpty(tuples: seq<Tuple>, k: nat, v: Value)
    requires KeysDefined(tuples, k) && v !in Tags(tuples, k)
    ensures GroupOf(tuples, k, v) == []
  {
    TagsCover(tuples, k, v);
    GroupOfNone(tuples, k, v);
  }

  lemma {:induction false} GroupOfNone(tuples: seq<Tuple>, k: nat, v: Value)
    requires KeysDefined(tuples, k)
    requires forall j :: 0 <= j < |tuples| ==> tuples[j][k] != v
    ensures GroupOf(tuples, k, v) == []
    decreases |tuples|
  {
    if |tuples| > 0 {
      GroupOfNone(tuples[..|tuples| - 1], k, v);
    }
  }

  /** One more tuple changes the reference grouping by `AddToGroups`. */
  lemma GroupedStep(tuples: seq<Tuple>, k: nat, x: Tuple)
    requires KeysDefined(tuples, k) && k < |x|
    ensures KeysDefined(tuples + [x], k)
    ensures Grouped(tuples + [x], k) == AddToGroups(Grouped(tuples, k), x[k], x)
  {
    var t := tuples + [x];
    assert t[..|t| - 1] == tuples;
    var g := Grouped(tuples, k);
    var g' := Grouped(t, k);
    var key := x[k];
    var add := AddToGroups(g, key, x);
    if key in g.tags {
      var i := IndexOf(g.tags, key);
      TagsDistinct(tuples, k);
      assert g'.tags == add.tags;
      forall j | 0 <= j < |g'.groups|
        ensures g'.groups[j] == add.groups[j]
      {
        if j != i {
          assert g.tags[j] != key;
        }
      }
    } else {
      GroupOfEmpty(tuples, k, key);
      assert g'.tags == add.tags;
      forall j | 0 <= j < |g'.groups|
        ensures g'.groups[j] == add.groups[j]
      {
        if j < |g.tags| {
          assert g.tags[j] != key;
        }
      }
    }
  }

  lemma {:induction false} FlattenUpdate(groups: seq<seq<Tuple>>, i: nat, x: Tuple)
    requires i < |groups|
    ensures multiset(Flatten(groups[i := groups[i] + [x]])) == multiset(Flatten(groups)) + multiset{x}
    decreases |groups|
  {
    var u := groups[i := groups[i] + [x]];
    var n := |groups| - 1;
    var init := groups[..n];
    assert Flatten(groups) == Flatten(init) + groups[n];
    assert Flatten(u) == Flatten(u[..n]) + u[n];
    if i < n {
      FlattenUpdate(init, i, x);
      assert u[..n] == init[i := init[i] + [x]];
      assert u[n] == groups[n];
    } else {
      assert u[..n] == init;
      assert u[n] == groups[n] + [x];
    }
  }

  /** Adding one tuple adds exactly that tuple to the groups. */
  lemma AddToGroupsCounts(g: Grouping, key: Value, x: Tuple)
    requires |g.tags| == |g.groups|
    ensures multiset(Flatten(AddToGroups(g, key, x).groups)) == multiset(Flatten(g.groups)) + multiset{x}
  {
    if key in g.tags {
      FlattenUpdate(g.groups, IndexOf(g.tags, key), x);
    } else {
      assert (g.groups + [[x]])[..|g.groups|] == g.groups;
    }
  }

  /** The groups together are a permutation of the input: no tuple lost, none duplicated. */
  lemma {:induction false} GroupedPermutation(tuples: seq<Tuple>, k: nat)
    requires KeysDefined(tuples, k)
    ensures multiset(Flatten(Grouped(tuples, k).groups)) == multiset(tuples)
    decreases |tuples|
  {
    if |tuples| > 0 {
      var init := tuples[..|tuples| - 1];
      var x := tuples[|tuples| - 1];
      GroupedPermutation(init, k);
      GroupedStep(init, k, x);
      assert init + [x] == tuples;
      AddToGroupsCounts(Grouped(init, k), x[k], x);
    }
  }

  /**
    The reference grouping: the tags are the distinct keys in
    first-occurrence order, there are as many groups as tags, group `i`
    holds in input order exactly the tuples with key `tags[i]`, and
    together the groups are a permutation of the input.
  */
  lemma GroupedSpec(tuples: seq<Tuple>, k: nat, v: Value)
    requires KeysDefined(tuples, k)
    ensures var g := Grouped(tuples, k);
            |g.tags| == |g.groups| &&
            (forall i, j :: 0 <= i < j < |g.tags| ==> g.tags[i] != g.tags[j]) &&
            (v in g.tags <==> exists j :: 0 <= j < |tuples| && tuples[j][k] == v) &&
            (forall n :: 0 <= n <= |tuples| ==> Tags(tuples[..n], k) <= g.tags) &&
            (forall i :: 0 <= i < |g.tags| ==> g.groups[i] == GroupOf(tuples, k, g.tags[i])) &&
            multiset(Flatten(g.groups)) == multiset(tuples)
  {
    TagsDistinct(tuples, k);
    TagsCover(tuples, k, v);
    forall n | 0 <= n <= |tuples|
      ensures Tags(tuples[..n], k) <= Tags(tuples, k)
    {
      TagsPrefix(tuples, k, n);
    }
    GroupedPermutation(tuples, k);
  }

  // ---------------------------------------------------------------------
  // The code as written against the reference.

  /** No tuple's orientation tag is the sentinel. */
  predicate NoSentinelTag(tuples: seq<Tuple>) {
    forall j :: 0 <= j < |tuples| ==> 4 < |tuples[j]| && tuples[j][4] != SentinelTag
  }

  function WithSentinels(g: Grouping): Grouping {
    Grouping([SentinelTag] + g.tags, [[SentinelTuple]] + g.groups)
  }

  lemma IndexOfAfterSentinel(tags: seq<Value>, v: Value)
    requires v != SentinelTag
    ensures IndexOf([SentinelTag] + tags, v) == 1 + IndexOf(tags, v)
  {
    assert ([SentinelTag] + tags)[1..] == tags;
  }

  /**
    With the tag at index 4 and no tuple tagged with the sentinel, the loop
    keeps the sentinels in front of the reference grouping.
  */
  lemma {:induction false} RunMatchesReference(tuples: seq<Tuple>)
    requires NoSentinelTag(tuples)
    ensures KeysDefined(tuples, 4)
    ensures RunAsWritten(tuples, 4) == Success(WithSentinels(Grouped(tuples, 4)))
    decreases |tuples|
  {
    if |tuples| == 0 {
      assert Grouped(tuples, 4) == Grouping([], []);
      assert WithSentinels(Grouping([], [])) == Grouping([SentinelTag], [[SentinelTuple]]);
    } else {
      var init := tuples[..|tuples| - 1];
      var x := tuples[|tuples| - 1];
      RunMatchesReference(init);
      var g := Grouped(init, 4);
      GroupedStep(init, 4, x);
      assert init + [x] == tuples;
      assert RunAsWritten(tuples, 4) == InsertAsWritten(WithSentinels(g), x, 4);
      InsertWithSentinels(g, x);
    }
  }

  /** One turn of the loop, with the tag at index 4 not the sentinel, is `AddToGroups` behind the sentinels. */
  lemma InsertWithSentinels(g: Grouping, x: Tuple)
    requires |g.tags| == |g.groups| && 4 < |x| && x[4] != SentinelTag
    ensures InsertAsWritten(WithSentinels(g), x, 4) == Success(WithSentinels(AddToGroups(g, x[4], x)))
  {
    var s := WithSentinels(g);
    assert PyIndex(x, 4) == Some(x[4]);
    assert x[4] in s.tags <==> x[4] in g.tags;
    if x[4] in g.tags {
      InsertKnownTag(g, x);
    } else {
      InsertNewTag(g, x);
    }
  }

  lemma InsertKnownTag(g: Grouping, x: Tuple)
    requires |g.tags| == |g.groups| && 4 < |x| && x[4] != SentinelTag && x[4] in g.tags
    ensures var s := WithSentinels(g);
            var i := IndexOf(s.tags, x[4]);
            i < |s.groups| && Grouping(s.tags, s.groups[i := s.groups[i] + [x]]) == WithSentinels(AddToGroups(g, x[4], x))
  {
    IndexOfAfterSentinel(g.tags, x[4]);
    var i := IndexOf(g.tags, x[4]);
    var s := WithSentinels(g);
    SentinelUpdate(g.groups, i, x);
    assert AddToGroups(g, x[4], x) == Grouping(g.tags, g.groups[i := g.groups[i] + [x]]);
  }

  /** Updating group `1 + i` behind the sentinel group is updating group `i`. */
  lemma SentinelUpdate(groups: seq<seq<Tuple>>, i: nat, x: Tuple)
    requires i < |groups|
    ensures var s := [[SentinelTuple]] + groups;
            s[1 + i := s[1 + i] + [x]] == [[SentinelTuple]] + groups[i := groups[i] + [x]]
  {
    var s := [[SentinelTuple]] + groups;
    var a := s[1 + i := s[1 + i] + [x]];
    var b := [[SentinelTuple]] + groups[i := groups[i] + [x]];
    assert |a| == |b|;
    forall j | 0 <= j < |a| ensures a[j] == b[j] {
      if j > 0 {
        assert b[j] == groups[i := groups[i] + [x]][j - 1];
      }
    }
  }

  lemma InsertNewTag(g: Grouping, x: Tuple)
    requires |g.tags| == |g.groups| && 4 < |x| && x[4] !in g.tags
    ensures var s := WithSentinels(g);
            Grouping(s.tags + [x[4]], s.groups + [[x]]) == WithSentinels(AddToGroups(g, x[4], x))
  {
    var s := WithSentinels(g);
    assert s.tags + [x[4]] == [SentinelTag] + (g.tags + [x[4]]);
    assert s.groups + [[x]] == [[SentinelTuple]] + (g.groups + [[x]]);
  }

  /**
    `sortTuplesByIndex(TupleList, 4)`, when no tag is the sentinel and every
    tuple has a tag, returns exactly the reference grouping.
  */
  lemma SortMatchesReference(tuples: seq<Tuple>)
    requires NoSentinelTag(tuples)
    ensures KeysDefined(tuples, 4)
    ensures SortAsWritten(tuples, 4) == Success(Grouped(tuples, 4))
  {
    RunMatchesReference(tuples);
    var g := Grouped(tuples, 4);
    assert ([SentinelTag] + g.tags)[1..] == g.tags;
    assert ([[SentinelTuple]] + g.groups)[1..] == g.groups;
  }

  /** A tuple tagged 'X34.2' joins the sentinel group and is popped with it. */
  const SentinelTagged: Tuple := [ShapeRef(0), Flag(false), Str("otherOp"), Num(0.0), SentinelTag]

  lemma SentinelTagLosesTuple()
    ensures SortAsWritten([SentinelTagged], 4) == Success(Grouping([], []))
    ensures KeysDefined([SentinelTagged], 4) &&
            Grouped([SentinelTagged], 4) == Grouping([SentinelTag], [[SentinelTagged]])
  {
    var t := [SentinelTagged];
    assert t[..0] == [];
    var start := Grouping([SentinelTag], [[SentinelTuple]]);
    assert RunAsWritten(t[..0], 4) == Success(start);
    assert PyIndex(SentinelTagged, 4) == Some(SentinelTag);
    assert IndexOf(start.tags, SentinelTag) == 0;
    assert start.groups[0] + [SentinelTagged] == [SentinelTuple, SentinelTagged];
    assert start.groups[0 := [SentinelTuple, SentinelTagged]] == [[SentinelTuple, SentinelTagged]];
    assert InsertAsWritten(start, SentinelTagged, 4) == Success(Grouping([SentinelTag], [[SentinelTuple, SentinelTagged]]));
    assert RunAsWritten(t, 4) == Success(Grouping([SentinelTag], [[SentinelTuple, SentinelTagged]]));
    assert Tags(t, 4) == [SentinelTag];
    assert GroupOf(t, 4, SentinelTag) == [SentinelTagged];
    assert Grouped(t, 4).groups == [[SentinelTagged]];
    assert [SentinelTag][1..] == [] && [[SentinelTuple, SentinelTagged]][1..] == [];
  }

  /** Two tuples whose tag at index 0 differs from the one at index 4. */
  const FirstMismatched: Tuple := [Str("p"), Flag(false), Str("a"), Num(0.0), Str("q")]
  const SecondMismatched: Tuple := [Str("q"), Flag(false), Str("a"), Num(0.0), Str("r")]

  /**
    With `tagIdx` 0, the second tuple's tag "q" is found (it is the first
    tuple's `tup[4]`), but its `tup[4]` "r" is not, and the group list is
    indexed past its end.
  */
  lemma MismatchedTagIndexFails()
    ensures SortAsWritten([FirstMismatched, SecondMismatched], 0) == Failure(IndexError)
  {
    var t := [FirstMismatched, SecondMismatched];
    assert t[..1] == [FirstMismatched];
    assert [FirstMismatched][..0] == [];
    var g := Grouping([SentinelTag, Str("q")], [[SentinelTuple], [FirstMismatched]]);
    var start := Grouping([SentinelTag], [[SentinelTuple]]);
    assert RunAsWritten([FirstMismatched][..0], 0) == Success(start);
    assert PyIndex(FirstMismatched, 0) == Some(Str("p"));
    assert Str("p") !in start.tags;
    assert start.tags + [Str("q")] == g.tags && start.groups + [[FirstMismatched]] == g.groups;
    assert InsertAsWritten(start, FirstMismatched, 0) == Success(g);
    assert RunAsWritten([FirstMismatched], 0) == Success(g);
    assert PyIndex(SecondMismatched, 0) == Some(Str("q"));
    assert g.tags[1..] == [Str("q")] && [Str("q")][1..] == [];
    assert IndexOf(g.tags, Str("r")) == 2;
    assert InsertAsWritten(g, SecondMismatched, 0) == Failure(IndexError);
  }

  /**
    The grouping as intended: the key at index `tagIdx` is used for the
    membership test, the search and the new tag alike, and no sentinel is
    needed. A tuple without that index fails.
  */
  function SortTuplesByTag(tuples: seq<Tuple>, tagIdx: nat): (r: Result<Grouping, PyError>)
    ensures r.Success? ==> |r.value.tags| == |r.value.groups|
    decreases |tuples|
  {
    if |tuples| == 0 then Success(Grouping([], []))
    else
      match SortTuplesByTag(tuples[..|tuples| - 1], tagIdx)
      case Failure(e) => Failure(e)
      case Success(g) =>
        var x := tuples[|tuples| - 1];
        if tagIdx < |x| then Success(AddToGroups(g, x[tagIdx], x)) else Failure(IndexError)
  }

  /** The intended grouping fails exactly on a tuple too short for the index, and is otherwise the reference grouping. */
  lemma {:induction false} SortTuplesByTagCorrect(tuples: seq<Tuple>, tagIdx: nat)
    ensures SortTuplesByTag(tuples, tagIdx).Success? <==> KeysDefined(tuples, tagIdx)
    ensures KeysDefined(tuples, tagIdx) ==> SortTuplesByTag(tuples, tagIdx) == Success(Grouped(tuples, tagIdx))
    decreases |tuples|
  {
    if |tuples| > 0 {
      var init := tuples[..|tuples| - 1];
      var x := tuples[|tuples| - 1];
      SortTuplesByTagCorrect(init, tagIdx);
      assert init + [x] == tuples;
      if KeysDefined(tuples, tagIdx) {
        GroupedStep(init, tagIdx, x);
      } else if KeysDefined(init, tagIdx) {
        var j :| 0 <= j < |tuples| && tagIdx >= |tuples[j]|;
        assert j == |tuples| - 1;
      }
    }
  }

  /** The intended grouping of the tuples that make the code as written fail. */
  lemma MismatchedTagIndexGrouped()
    ensures SortTuplesByTag([FirstMismatched, SecondMismatched], 0) ==
              Success(Grouping([Str("p"), Str("q")], [[FirstMismatched], [SecondMismatched]]))
  {
    var t := [FirstMismatched, SecondMismatched];
    assert t[..1] == [FirstMismatched];
    assert [FirstMismatched][..0] == [];
    assert SortTuplesByTag([FirstMismatched][..0], 0) == Success(Grouping([], []));
    assert AddToGroups(Grouping([], []), Str("p"), FirstMismatched) == Grouping([Str("p")], [[FirstMismatched]]);
    assert SortTuplesByTag([FirstMismatched], 0) == Success(Grouping([Str("p")], [[FirstMismatched]]));
    assert AddToGroups(Grouping([Str("p")], [[FirstMismatched]]), Str("q"), SecondMismatched) ==
           Grouping([Str("p"), Str("q")], [[FirstMismatched], [SecondMismatched]]);
  }

  // ---------------------------------------------------------------------
  // Decisions of `opExecute` and its helpers.

  /**
    `warnDisabledAxis(obj, axis)`: True, with a warning naming the rotation
    the feature needs, when the feature needs the axis that `EnableRotation`
    leaves out.
  */
  function WarnDisabledAxis(axis: string, enableRotation: string): (r: (bool, Option<string>))
    ensures r.0 <==> (axis == "X" && enableRotation == "B(y)") || (axis == "Y" && enableRotation == "A(x)")
    ensures r.1.Some? <==> r.0
    ensures r.0 ==> r.1 == Some(InaccessibleWithout(if axis == "X" then "A(x)" else "B(y)"))
  {
    if axis == "X" && enableRotation == "B(y)" then (true, Some(InaccessibleWithout("A(x)")))
    else if axis == "Y" && enableRotation == "A(x)" then (true, Some(InaccessibleWithout("B(y)")))
    else (false, None)
  }

  /** The warning of `warnDisabledAxis`, naming the rotation the feature needs. */
  function InaccessibleWithout(rotation: string): string {
    "Part feature is inaccessible.  Selected feature(s) require '" + rotation + "' for access."
  }

  /** The rotation modes of `EnableRotation` that the decisions compare with differ from one another. */
  lemma RotationNamesDiffer()
    ensures "A(x)" != "B(y)" && "Off" != "A(x)" && "Off" != "B(y)" && "A & B" != "A(x)" && "A & B" != "B(y)"
    ensures "X" != "Y"
  {
    assert "A(x)"[0] != "B(y)"[0];
    assert "A & B"[1] != "A(x)"[1];
  }

  /** The rotation a feature on `axis` needs. */
  function RequiredRotation(axis: string): Option<string> {
    if axis == "X" then Some("A(x)") else if axis == "Y" then Some("B(y)") else None
  }

  /**
    The warning fires exactly when the feature needs a rotation and only
    the other single-axis rotation is enabled; with both axes or rotation
    off it never fires.
  */
  lemma WarnDisabledAxisMeaning(axis: string, enableRotation: string)
    ensures WarnDisabledAxis(axis, enableRotation).0 <==>
              RequiredRotation(axis).Some? && enableRotation != RequiredRotation(axis).value &&
              (enableRotation == "A(x)" || enableRotation == "B(y)")
    ensures enableRotation == "Off" || enableRotation == "A & B" ==> !WarnDisabledAxis(axis, enableRotation).0
  {
    RotationNamesDiffer();
  }

  /** What `calculateStartFinalDepths` returns, and whether it logged the start-depth error. */
  datatype Depths = Depths(strDep: real, finDep: real, loggedError: bool)

  function Max(a: real, b: real): real { if a >= b then a else b }
  function Min(a: real, b: real): real { if a <= b then a else b }

  /**
    `calculateStartFinalDepths`: the final depth is the requested one or
    the bottom of the face, whichever is higher; the start depth is the requested one (capped by the stock top
    when rotation is on) when that lies above the final depth, and the
    stock top otherwise.
  */
  function CalculateStartFinalDepths(startDepth: real, finalDepth: real, zMin: real, stockTop: real,
                                     enableRotation: string): (r: Depths)
    ensures r.finDep >= finalDepth && r.finDep >= zMin && (r.finDep == finalDepth || r.finDep == zMin)
    ensures enableRotation == "Off" ==> r.strDep == (if startDepth > r.finDep then startDepth else stockTop)
    ensures enableRotation != "Off" ==> r.strDep <= stockTop
    ensures enableRotation != "Off" ==>
              r.strDep == (if Min(startDepth, stockTop) > r.finDep then Min(startDepth, stockTop) else stockTop)
    ensures r.loggedError <==> enableRotation != "Off" && Min(startDepth, stockTop) <= r.finDep
  {
    var finDep := Max(finalDepth, zMin);
    if enableRotation == "Off" then
      Depths(if startDepth <= finDep then stockTop else startDepth, finDep, false)
    else
      var strDep := Min(startDepth, stockTop);
      if strDep <= finDep then Depths(stockTop, finDep, true) else Depths(strDep, finDep, false)
  }

  /**
    Whatever the rotation, the start depth lies above the final depth
    unless the stock top itself does not, and the two modes agree when
    the requested start is within the stock.
  */
  lemma DepthsOrdered(startDepth: real, finalDepth: real, zMin: real, stockTop: real, enableRotation: string)
    ensures var d := CalculateStartFinalDepths(startDepth, finalDepth, zMin, stockTop, enableRotation);
            d.strDep > d.finDep || d.strDep == stockTop
    ensures startDepth <= stockTop ==>
              CalculateStartFinalDepths(startDepth, finalDepth, zMin, stockTop, enableRotation).strDep ==
              CalculateStartFinalDepths(startDepth, finalDepth, zMin, stockTop, "Off").strDep
  {
  }

  /** A 2-tuple from another operation, padded to the seven fields the loop unpacks. */
  function Pad(shp: Tuple, startDepth: real, finalDepth: real): (r: Tuple)
    ensures |shp| == 2 ==> |r| == 7 && r[..2] == shp && r[4] == Str("S") &&
                           r[2..] == [Str("otherOp"), Num(0.0), Str("S"), Num(startDepth), Num(finalDepth)]
    ensures |shp| != 2 ==> r == shp
  {
    if |shp| == 2 then
      [shp[0], shp[1], Str("otherOp"), Num(0.0), Str("S"), Num(startDepth), Num(finalDepth)]
    else shp
  }

  /** Padding what is padded changes nothing. */
  lemma PadIdempotent(shp: Tuple, startDepth: real, finalDepth: real)
    ensures Pad(Pad(shp, startDepth, finalDepth), startDepth, finalDepth) == Pad(shp, startDepth, finalDepth)
  {
  }

  /** The padding loop of `opExecute`: one shape out per shape in, in order. */
  method PadShapes(aOS: seq<Tuple>, startDepth: real, finalDepth: real) returns (shapes: seq<Tuple>)
    ensures |shapes| == |aOS|
    ensures forall i :: 0 <= i < |aOS| ==> shapes[i] == Pad(aOS[i], startDepth, finalDepth)
  {
    shapes := [];
    for n := 0 to |aOS|
      invariant |shapes| == n
      invariant forall i :: 0 <= i < n ==> shapes[i] == Pad(aOS[i], startDepth, finalDepth)
    {
      var shp := aOS[n];
      if |shp| == 2 {
        var tup := [shp[0], shp[1], Str("otherOp"), Num(0.0), Str("S"), Num(startDepth), Num(finalDepth)];
        shapes := shapes + [tup];
      } else {
        shapes := shapes + [shp];
      }
    }
  }

  /**
    Round `ns` of the loop up to its `nextAxis`: `shapes[ns]` is unpacked
    into seven names, which fails with a ValueError for any other length;
    then the next shape's `[4]`, or 'L' after the last.
  */
  function NextAxis(shapes: seq<Tuple>, ns: nat): (r: Result<Value, PyError>)
    requires ns < |shapes|
    ensures |shapes[ns]| != 7 ==> r == Failure(ValueError)
    ensures |shapes[ns]| == 7 && ns == |shapes| - 1 ==> r == Success(Str("L"))
    ensures |shapes[ns]| == 7 && ns < |shapes| - 1 ==> (r.Success? <==> 4 < |shapes[ns + 1]|)
    ensures ns < |shapes| - 1 && r.Success? ==> r.value == shapes[ns + 1][4]
  {
    if |shapes[ns]| != 7 then Failure(ValueError)
    else if ns < |shapes| - 1 then
      match PyIndex(shapes[ns + 1], 4)
      case None => Failure(IndexError)
      case Some(v) => Success(v)
    else Success(Str("L"))
  }

  /**
    After padding, a next shape that came from another operation has the
    axis 'S', provided the current shape unpacks: a 2-tuple padded, or a
    7-tuple; any other length raises the ValueError.
  */
  lemma NextAxisOfPadded(aOS: seq<Tuple>, startDepth: real, finalDepth: real, ns: nat)
    requires ns + 1 < |aOS| && |aOS[ns + 1]| == 2
    ensures var shapes := seq(|aOS|, i requires 0 <= i < |aOS| => Pad(aOS[i], startDepth, finalDepth));
            NextAxis(shapes, ns) == if |aOS[ns]| == 2 || |aOS[ns]| == 7 then Success(Str("S")) else Failure(ValueError)
  {
  }

  /** A padded 2-tuple always unpacks into the loop's seven names. */
  lemma PaddedUnpacks(shapes: seq<Tuple>, aOS: seq<Tuple>, startDepth: real, finalDepth: real, ns: nat)
    requires |shapes| == |aOS| && ns < |aOS| && |aOS[ns]| == 2
    requires shapes[ns] == Pad(aOS[ns], startDepth, finalDepth)
    ensures NextAxis(shapes, ns) != Failure(ValueError)
  {
  }

  /**
    The same after `sort_jobs` has reordered the padded shapes, whatever
    order it picks: the shape at `ns + 1` is one of the padded ones, and
    when it came from a 2-tuple the axis is 'S'.
  */
  lemma NextAxisAfterReorder(aOS: seq<Tuple>, startDepth: real, finalDepth: real, sorted: seq<Tuple>, ns: nat)
    requires multiset(sorted) == multiset(seq(|aOS|, i requires 0 <= i < |aOS| => Pad(aOS[i], startDepth, finalDepth)))
    requires ns + 1 < |sorted|
    ensures |sorted| == |aOS|
    ensures exists j :: 0 <= j < |aOS| && sorted[ns + 1] == Pad(aOS[j], startDepth, finalDepth)
    ensures forall j :: 0 <= j < |aOS| && |aOS[j]| == 2 && sorted[ns + 1] == Pad(aOS[j], startDepth, finalDepth) ==>
              NextAxis(sorted, ns) == if |sorted[ns]| == 7 then Success(Str("S")) else Failure(ValueError)
  {
    var padded := seq(|aOS|, i requires 0 <= i < |aOS| => Pad(aOS[i], startDepth, finalDepth));
    assert |sorted| == |multiset(sorted)| == |multiset(padded)| == |padded|;
    assert sorted[ns + 1] in multiset(sorted);
    assert sorted[ns + 1] in padded;
    var j :| 0 <= j < |padded| && padded[j] == sorted[ns + 1];
    assert sorted[ns + 1] == Pad(aOS[j], startDepth, finalDepth);
  }
}
