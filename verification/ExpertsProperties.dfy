/** What gathering expert weights achieves, for every order of arrival (convert_hf_to_gguf.py). */
module ExpertsProperties {
  import opened Wrappers
  import opened Experts

  /** Every arrival is one of the layer's experts, under its own layer, and none comes twice. */
  ghost predicate WellNamed<T>(es: seq<Arrival<T>>, blocks: nat, n: nat) {
    && (forall i :: 0 <= i < |es| ==> es[i].bid < blocks && es[i].name in AllNames(es[i].bid, n))
    && (forall i, j :: 0 <= i < j < |es| ==> es[i].name != es[j].name)
  }

  function AllNames(l: nat, n: nat): (s: set<Name>)
    ensures forall k :: k in s <==> k.Expert? && k.layer == l && k.xid < n
  {
    NamesOf(l, W1, n) + NamesOf(l, W2, n) + NamesOf(l, W3, n)
  }

  /** What has arrived for a layer. */
  function Received<T>(es: seq<Arrival<T>>, l: nat): Buffer<T> {
    if es == [] then map[]
    else
      var a := es[|es| - 1];
      if a.bid == l then Received(es[..|es| - 1], l)[a.name := a.data] else Received(es[..|es| - 1], l)
  }

  predicate Complete<T>(es: seq<Arrival<T>>, l: nat, n: nat) {
    AllNames(l, n) <= Received(es, l).Keys
  }

  function SlotsOf<T>(es: seq<Arrival<T>>, l: nat, w: Weight, n: nat): (s: seq<T>)
    requires Complete(es, l, n)
    ensures |s| == n && forall x: nat :: x < n ==> s[x] == Received(es, l)[Expert(l, x, w)]
  {
    Slots(Received(es, l), l, w, n).value
  }

  function MergedOf<T>(es: seq<Arrival<T>>, l: nat, n: nat): (r: seq<Merged<T>>)
    requires Complete(es, l, n)
  {
    [Merged(l, W1, SlotsOf(es, l, W1, n)), Merged(l, W2, SlotsOf(es, l, W2, n)), Merged(l, W3, SlotsOf(es, l, W3, n))]
  }

  /** A layer is emitted by the arrival that completes it. */
  function Emitted<T>(es: seq<Arrival<T>>, n: nat): seq<Merged<T>> {
    if es == [] then []
    else
      var l := es[|es| - 1].bid;
      Emitted(es[..|es| - 1], n) + if Complete(es, l, n) then MergedOf(es, l, n) else []
  }

  /** The buffers after all arrivals: complete layers are empty again, the others hold what came. */
  ghost predicate Holds<T>(bufs: seq<Buffer<T>>, es: seq<Arrival<T>>, blocks: nat, n: nat) {
    |bufs| == blocks && forall l :: 0 <= l < blocks ==> bufs[l] == if Complete(es, l, n) then map[] else Received(es, l)
  }

  // ---------------------------------------------------------------- what is received

  /** A name is received exactly when some arrival carried it, with that arrival's data. */
  lemma {:induction false} ReceivedIs<T>(es: seq<Arrival<T>>, blocks: nat, n: nat, l: nat)
    requires WellNamed(es, blocks, n)
    ensures forall k :: k in Received(es, l) <==> exists i :: 0 <= i < |es| && es[i].name == k && es[i].bid == l
    ensures forall i :: 0 <= i < |es| && es[i].bid == l ==>
            es[i].name in Received(es, l) && Received(es, l)[es[i].name] == es[i].data
  {
    hide AllNames;
    if es != [] {
      ReceivedIs(es[..|es| - 1], blocks, n, l);
    }
  }

  lemma ReceivedNames<T>(es: seq<Arrival<T>>, blocks: nat, n: nat, l: nat)
    requires WellNamed(es, blocks, n)
    ensures Received(es, l).Keys <= AllNames(l, n)
  {
    ReceivedIs(es, blocks, n, l);
  }

  lemma {:induction false} NamesCount(l: nat, w: Weight, n: nat)
    ensures |NamesOf(l, w, n)| == n
  {
    if n > 0 {
      NamesCount(l, w, n - 1);
      assert NamesOf(l, w, n) == NamesOf(l, w, n - 1) + {Expert(l, n - 1, w)};
    }
  }

  lemma AllNamesCount(l: nat, n: nat)
    ensures |AllNames(l, n)| == n * 3
  {
    NamesCount(l, W1, n);
    NamesCount(l, W2, n);
    NamesCount(l, W3, n);
    assert NamesOf(l, W1, n) !! NamesOf(l, W2, n);
    assert NamesOf(l, W1, n) + NamesOf(l, W2, n) !! NamesOf(l, W3, n);
  }

  lemma SubsetCount<A>(s: set<A>, t: set<A>)
    requires s <= t
    ensures |s| <= |t|
    ensures |s| == |t| ==> s == t
  {
    assert t == s + (t - s);
    assert |t| == |s| + |t - s|;
  }

  /** The buffer is as long as three kinds for all experts exactly when they are all there. */
  lemma LengthTells<T>(es: seq<Arrival<T>>, blocks: nat, n: nat, l: nat)
    requires WellNamed(es, blocks, n)
    ensures |Received(es, l)| >= n * 3 <==> Complete(es, l, n)
    ensures Complete(es, l, n) ==> Received(es, l).Keys == AllNames(l, n)
  {
    ReceivedNames(es, blocks, n, l);
    AllNamesCount(l, n);
    var keys := Received(es, l).Keys;
    assert |keys| == |Received(es, l)|;
    SubsetCount(keys, AllNames(l, n));
    hide Received, AllNames;
    if Complete(es, l, n) {
      assert keys == AllNames(l, n);
    }
  }

  // ---------------------------------------------------------------- one arrival

  /** Merging a complete buffer empties it. */
  lemma MergeComplete<T>(es: seq<Arrival<T>>, l: nat, n: nat)
    requires n > 0 && Received(es, l).Keys == AllNames(l, n)
    ensures Complete(es, l, n) && Merge(Received(es, l), l, WEIGHTS, n) == Ok((map[], MergedOf(es, l, n)))
  {
    hide Merge, Received, MergedFrom, Slots, SlotsOf;
    var buf := Received(es, l);
    var b1 := buf - NamesOf(l, W1, n);
    var b2 := b1 - NamesOf(l, W2, n);
    var b3 := b2 - NamesOf(l, W3, n);
    assert b3 == map[];
    var m1, m2, m3 := MergedFrom(buf, l, W1, n), MergedFrom(buf, l, W2, n), MergedFrom(buf, l, W3, n);
    assert WEIGHTS[..0] == [] && WEIGHTS[..3] == WEIGHTS;
    MergeNothing(buf, l, n);
    MergeStage(buf, buf, l, 0, n, W1, []);
    assert [] + [m1] == [m1];
    MergeStage(buf, b1, l, 1, n, W2, [m1]);
    assert [m1] + [m2] == [m1, m2];
    MergeStage(buf, b2, l, 2, n, W3, [m1, m2]);
    assert [m1, m2] + [m3] == [m1, m2, m3];
    MergedAre(es, buf, l, n);
  }

  lemma MergeNothing<T>(buf: Buffer<T>, l: nat, n: nat)
    ensures Merge(buf, l, [], n) == Ok((buf, []))
  {
  }

  lemma MergedAre<T>(es: seq<Arrival<T>>, buf: Buffer<T>, l: nat, n: nat)
    requires Complete(es, l, n) && buf == Received(es, l)
    ensures MergedOf(es, l, n) == [MergedFrom(buf, l, W1, n), MergedFrom(buf, l, W2, n), MergedFrom(buf, l, W3, n)]
  {
    hide Slots, Received;
  }

  function MergedFrom<T>(buf: Buffer<T>, l: nat, w: Weight, n: nat): Merged<T>
    requires forall x: nat :: x < n ==> Expert(l, x, w) in buf
  {
    Merged(l, w, Slots(buf, l, w, n).value)
  }

  lemma MergeStage<T>(buf: Buffer<T>, rest: Buffer<T>, l: nat, i: nat, n: nat, w: Weight, done: seq<Merged<T>>)
    requires i < 3 && n > 0 && w == WEIGHTS[i] && Merge(buf, l, WEIGHTS[..i], n) == Ok((rest, done))
    requires forall x: nat :: x < n ==>
             Expert(l, x, w) in buf && Expert(l, x, w) in rest && rest[Expert(l, x, w)] == buf[Expert(l, x, w)]
    ensures Merge(buf, l, WEIGHTS[..i + 1], n) == Ok((rest - NamesOf(l, w, n), done + [MergedFrom(buf, l, w, n)]))
  {
    SameSlots(buf, rest, l, w, n);
    MergeOneMore(buf, l, i, n, rest, done);
    hide Merge;
  }

  lemma SameSlots<T>(buf: Buffer<T>, rest: Buffer<T>, l: nat, w: Weight, n: nat)
    requires forall x: nat :: x < n ==>
             Expert(l, x, w) in buf && Expert(l, x, w) in rest && rest[Expert(l, x, w)] == buf[Expert(l, x, w)]
    ensures Slots(buf, l, w, n) == Slots(rest, l, w, n)
  {
    var s, t := Slots(buf, l, w, n), Slots(rest, l, w, n);
    assert s.value == t.value;
  }

  /** A new name means its layer was not complete yet. */
  lemma NotYetComplete<T>(es: seq<Arrival<T>>, blocks: nat, n: nat)
    requires WellNamed(es, blocks, n) && es != []
    ensures !Complete(es[..|es| - 1], es[|es| - 1].bid, n)
  {
    var init, a := es[..|es| - 1], es[|es| - 1];
    ReceivedIs(init, blocks, n, a.bid);
    assert a.name in AllNames(a.bid, n) && a.name !in Received(init, a.bid);
  }

  lemma StepGathers<T>(bufs: seq<Buffer<T>>, es: seq<Arrival<T>>, blocks: nat, n: nat)
    requires WellNamed(es, blocks, n) && es != [] && Holds(bufs, es[..|es| - 1], blocks, n)
    ensures Step(bufs, n, es[|es| - 1]).Ok?
    ensures var (after, out) := Step(bufs, n, es[|es| - 1]).value;
            Holds(after, es, blocks, n) && out == if Complete(es, es[|es| - 1].bid, n)
                then MergedOf(es, es[|es| - 1].bid, n) else []
  {
    hide Merge, Received, Complete, AllNames, MergedOf;
    var a, init := es[|es| - 1], es[..|es| - 1];
    var l := a.bid;
    NotYetComplete(es, blocks, n);
    LengthTells(es, blocks, n, l);
    SomeExperts(es, blocks, n);
    LastReceived(es);
    forall k: nat | k != l
      ensures Received(es, k) == Received(init, k) && (Complete(es, k, n) <==> Complete(init, k, n))
    {
      OtherLayer(es, k, n);
    }
    if Complete(es, l, n) {
      MergeComplete(es, l, n);
    }
  }

  lemma OtherLayer<T>(es: seq<Arrival<T>>, k: nat, n: nat)
    requires es != [] && k != es[|es| - 1].bid
    ensures Received(es, k) == Received(es[..|es| - 1], k) && (Complete(es, k, n) <==> Complete(es[..|es| - 1], k, n))
  {
  }

  lemma SomeExperts<T>(es: seq<Arrival<T>>, blocks: nat, n: nat)
    requires WellNamed(es, blocks, n) && es != []
    ensures n > 0
  {
    assert es[0].name in AllNames(es[0].bid, n);
  }

  lemma LastReceived<T>(es: seq<Arrival<T>>)
    requires es != []
    ensures var a := es[|es| - 1]; Received(es, a.bid) == Received(es[..|es| - 1], a.bid)[a.name := a.data]
  {
  }

  // ---------------------------------------------------------------- whole runs

  /**
   Whatever the order of arrival, gathering never raises: each layer is emitted once, by the arrival
   that completes it, with expert `x` in slot `x`, and its buffer is then empty.
   */
  lemma {:induction false} RunGathers<T>(es: seq<Arrival<T>>, blocks: nat, n: nat)
    requires WellNamed(es, blocks, n)
    ensures Run(es, blocks, n).Ok?
    ensures Holds(Run(es, blocks, n).value.0, es, blocks, n) && Run(es, blocks, n).value.1 == Emitted(es, n)
  {
    if es == [] {
      forall l | 0 <= l < blocks
        ensures NoBuffers<T>(blocks)[l] == Received(es, l)
      {
      }
    } else {
      RunGathers(es[..|es| - 1], blocks, n);
      StepGathers(Run(es[..|es| - 1], blocks, n).value.0, es, blocks, n);
    }
  }

  /** prepare_tensors raises exactly when some layer received some of its experts but not all. */
  lemma RaisesWhenIncomplete<T>(es: seq<Arrival<T>>, blocks: nat, n: nat)
    requires WellNamed(es, blocks, n)
    ensures Run(es, blocks, n).Ok?
    ensures LeftOver(Run(es, blocks, n).value.0) == {} <==>
            forall l: nat :: l < blocks ==> Received(es, l) == map[] || Complete(es, l, n)
  {
    RunGathers(es, blocks, n);
    var bufs := Run(es, blocks, n).value.0;
    forall l: nat | l < blocks
      ensures bufs[l] == map[] <==> Received(es, l) == map[] || Complete(es, l, n)
    {
    }
  }

  /** The merged tensors that the arrivals amount to, whatever their order. */
  ghost predicate IsMerged<T>(es: seq<Arrival<T>>, n: nat, m: Merged<T>) {
    n > 0 && Complete(es, m.layer, n) && m.slots == SlotsOf(es, m.layer, m.wid, n)
  }

  /** What arrives later does not change a layer that is already complete. */
  lemma SettledLayer<T>(es: seq<Arrival<T>>, blocks: nat, n: nat, m: Merged<T>)
    requires WellNamed(es, blocks, n) && es != [] && m.layer != es[|es| - 1].bid
    ensures IsMerged(es, n, m) <==> IsMerged(es[..|es| - 1], n, m)
  {
    assert Received(es, m.layer) == Received(es[..|es| - 1], m.layer);
    if n > 0 && Complete(es, m.layer, n) {
      assert SlotsOf(es, m.layer, m.wid, n) == SlotsOf(es[..|es| - 1], m.layer, m.wid, n);
    }
  }

  /** Each merged tensor is emitted exactly once, and nothing else is. */
  lemma {:induction false} EmittedOnce<T>(es: seq<Arrival<T>>, blocks: nat, n: nat, m: Merged<T>)
    requires WellNamed(es, blocks, n)
    ensures multiset(Emitted(es, n))[m] == if IsMerged(es, n, m) then 1 else 0
  {
    if es == [] {
      assert n > 0 ==> Expert(m.layer, 0, m.wid) in AllNames(m.layer, n);
    } else {
      var init, l := es[..|es| - 1], es[|es| - 1].bid;
      EmittedOnce(init, blocks, n, m);
      NotYetComplete(es, blocks, n);
      SomeExperts(es, blocks, n);
      if m.layer == l {
        LastEmits(es, l, n, m);
      } else {
        SettledLayer(es, blocks, n, m);
      }
      var more := if Complete(es, l, n) then MergedOf(es, l, n) else [];
      hide Received, IsMerged, Complete, AllNames, SlotsOf, WellNamed;
      assert multiset(Emitted(init, n) + more) == multiset(Emitted(init, n)) + multiset(more);
    }
  }

  lemma LastEmits<T>(es: seq<Arrival<T>>, l: nat, n: nat, m: Merged<T>)
    requires n > 0 && m.layer == l
    ensures IsMerged(es, n, m) <==> Complete(es, l, n) && m in MergedOf(es, l, n)
    ensures Complete(es, l, n) ==> multiset(MergedOf(es, l, n))[m] <= 1
  {
    hide Received, AllNames, SlotsOf;
    if Complete(es, l, n) {
      var r := MergedOf(es, l, n);
      assert m in r <==> m == r[0] || m == r[1] || m == r[2];
      match m.wid
      case W1 => assert r[0] == Merged(l, m.wid, SlotsOf(es, l, m.wid, n));
      case W2 => assert r[1] == Merged(l, m.wid, SlotsOf(es, l, m.wid, n));
      case W3 => assert r[2] == Merged(l, m.wid, SlotsOf(es, l, m.wid, n));
    }
  }

  /** Every input of a complete layer is used exactly once, in its own slot. */
  lemma UsedOnce<T>(es: seq<Arrival<T>>, blocks: nat, n: nat, i: nat, m: Merged<T>)
    requires WellNamed(es, blocks, n) && i < |es| && Complete(es, es[i].bid, n)
    requires m == Merged(es[i].bid, es[i].name.wid, SlotsOf(es, es[i].bid, es[i].name.wid, n))
    ensures es[i].name.xid < n == |m.slots| && m.slots[es[i].name.xid] == es[i].data
    ensures multiset(Emitted(es, n))[m] == 1
    ensures forall o :: o in Emitted(es, n) && o.layer == m.layer && o.wid == m.wid ==> o == m
  {
    assert es[i].name in AllNames(es[i].bid, n);
    ReceivedIs(es, blocks, n, es[i].bid);
    EmittedOnce(es, blocks, n, m);
    forall o | o in Emitted(es, n) && o.layer == m.layer && o.wid == m.wid
      ensures o == m
    {
      EmittedOnce(es, blocks, n, o);
      assert o in multiset(Emitted(es, n));
    }
  }

  /** The order of arrival does not matter. */
  lemma OrderDoesNotMatter<T>(es: seq<Arrival<T>>, fs: seq<Arrival<T>>, blocks: nat, n: nat)
    requires WellNamed(es, blocks, n) && WellNamed(fs, blocks, n) && multiset(es) == multiset(fs)
    ensures multiset(Emitted(es, n)) == multiset(Emitted(fs, n))
    ensures Run(es, blocks, n).Ok? && Run(fs, blocks, n).Ok?
    ensures Run(es, blocks, n).value.0 == Run(fs, blocks, n).value.0
    ensures multiset(Run(es, blocks, n).value.1) == multiset(Run(fs, blocks, n).value.1)
  {
    hide Run, Received, Emitted, WellNamed;
    SameReceivedAll(es, fs, blocks, n);
    RunGathers(es, blocks, n);
    RunGathers(fs, blocks, n);
    SameBuffers(Run(es, blocks, n).value.0, Run(fs, blocks, n).value.0, es, fs, blocks, n);
    forall m: Merged<T>
      ensures multiset(Emitted(es, n))[m] == multiset(Emitted(fs, n))[m]
    {
      SameCount(es, fs, blocks, n, m);
    }
    hide *;
    SameMultiset(multiset(Emitted(es, n)), multiset(Emitted(fs, n)));
  }

  lemma SameBuffers<T>(a: seq<Buffer<T>>, b: seq<Buffer<T>>, es: seq<Arrival<T>>, fs: seq<Arrival<T>>, blocks: nat,
                       n: nat)
    requires Holds(a, es, blocks, n) && Holds(b, fs, blocks, n) && forall l: nat :: Received(es, l) == Received(fs, l)
    ensures a == b
  {
    forall l: nat | l < blocks
      ensures a[l] == b[l]
    {
      assert Received(es, l) == Received(fs, l);
      hide Received;
    }
  }

  lemma SameMultiset<A>(x: multiset<A>, y: multiset<A>)
    requires forall m: A :: x[m] == y[m]
    ensures x == y
  {
  }

  lemma SameReceivedAll<T>(es: seq<Arrival<T>>, fs: seq<Arrival<T>>, blocks: nat, n: nat)
    requires WellNamed(es, blocks, n) && WellNamed(fs, blocks, n) && multiset(es) == multiset(fs)
    ensures forall l: nat :: Received(es, l) == Received(fs, l)
  {
    hide WellNamed, Received;
    forall l: nat
      ensures Received(es, l) == Received(fs, l)
    {
      SameReceived(es, fs, blocks, n, l);
      SameReceived(fs, es, blocks, n, l);
    }
  }

  lemma SameCount<T>(es: seq<Arrival<T>>, fs: seq<Arrival<T>>, blocks: nat, n: nat, m: Merged<T>)
    requires WellNamed(es, blocks, n) && WellNamed(fs, blocks, n) && Received(es, m.layer) == Received(fs, m.layer)
    ensures multiset(Emitted(es, n))[m] == multiset(Emitted(fs, n))[m]
  {
    EmittedOnce(es, blocks, n, m);
    EmittedOnce(fs, blocks, n, m);
    SameMerged(es, fs, n, m);
  }

  lemma SameMerged<T>(es: seq<Arrival<T>>, fs: seq<Arrival<T>>, n: nat, m: Merged<T>)
    requires Received(es, m.layer) == Received(fs, m.layer)
    ensures IsMerged(es, n, m) <==> IsMerged(fs, n, m)
  {
    if n > 0 && Complete(es, m.layer, n) {
      assert SlotsOf(es, m.layer, m.wid, n) == SlotsOf(fs, m.layer, m.wid, n);
    }
  }

  lemma SameReceived<T>(es: seq<Arrival<T>>, fs: seq<Arrival<T>>, blocks: nat, n: nat, l: nat)
    requires WellNamed(es, blocks, n) && WellNamed(fs, blocks, n) && multiset(es) == multiset(fs)
    ensures forall k :: k in Received(es, l) ==> k in Received(fs, l) && Received(es, l)[k] == Received(fs, l)[k]
  {
    ReceivedIs(es, blocks, n, l);
    ReceivedIs(fs, blocks, n, l);
    forall k | k in Received(es, l)
      ensures k in Received(fs, l) && Received(es, l)[k] == Received(fs, l)[k]
    {
      var i :| 0 <= i < |es| && es[i].name == k && es[i].bid == l;
      assert es[i] in multiset(es) && es[i] in multiset(fs);
      var j :| 0 <= j < |fs| && fs[j] == es[i];
    }
  }

  // ---------------------------------------------------------------- what is missing

  ghost predicate Present<T>(buf: Buffer<T>, bid: nat, i: nat, x: nat)
    requires i < |WEIGHTS|
  {
    Expert(bid, x, WEIGHTS[i]) in buf
  }

  ghost predicate AllPresent<T>(buf: Buffer<T>, bid: nat, k: nat, n: nat)
    requires k <= |WEIGHTS|
  {
    forall i: nat, x: nat :: i < k && x < n ==> Present(buf, bid, i, x)
  }

  /** The first name that is missing, in the order of the kinds and then of the experts. */
  ghost predicate FirstMissing<T>(buf: Buffer<T>, bid: nat, i: nat, x: nat, n: nat) {
    && i < |WEIGHTS| && x < n && !Present(buf, bid, i, x)
    && AllPresent(buf, bid, i, n)
    && (forall y: nat :: y < x ==> Present(buf, bid, i, y))
  }

  lemma {:induction false} SlotsMissing<T>(buf: Buffer<T>, bid: nat, w: Weight, n: nat) returns (x: nat)
    requires Slots(buf, bid, w, n).Err?
    ensures x < n && Expert(bid, x, w) !in buf && Slots(buf, bid, w, n).error == NameMissing(Expert(bid, x, w))
    ensures forall y: nat :: y < x ==> Expert(bid, y, w) in buf
  {
    if Slots(buf, bid, w, n - 1).Err? {
      x := SlotsMissing(buf, bid, w, n - 1);
    } else {
      x := n - 1;
    }
  }

  /** The buffer `rest` after the first `k` kinds were taken out of `buf`. */
  ghost predicate TakenOut<T>(buf: Buffer<T>, rest: Buffer<T>, bid: nat, k: nat) {
    forall i: nat, x: nat :: k <= i < |WEIGHTS| ==> (Present(rest, bid, i, x) <==> Present(buf, bid, i, x))
  }

  ghost predicate FailsAtFirst<T>(r: Error, buf: Buffer<T>, bid: nat, i: nat, x: nat, n: nat) {
    FirstMissing(buf, bid, i, x, n) && r == NameMissing(Expert(bid, x, WEIGHTS[i]))
  }

  /** Merging the first `k` kinds fails at the first name that is missing, and takes away only those kinds. */
  lemma {:induction false} MergeMissing<T>(buf: Buffer<T>, bid: nat, k: nat, n: nat)
    requires n > 0 && k <= |WEIGHTS|
    ensures var r := Merge(buf, bid, WEIGHTS[..k], n);
            && (r.Ok? <==> AllPresent(buf, bid, k, n))
            && (r.Ok? ==> TakenOut(buf, r.value.0, bid, k))
            && (r.Err? ==> exists i: nat, x: nat :: i < k && FailsAtFirst(r.error, buf, bid, i, x, n))
  {
    hide Slots;
    if k > 0 {
      MergeMissing(buf, bid, k - 1, n);
      assert WEIGHTS[..k][..k - 1] == WEIGHTS[..k - 1];
      var before := Merge(buf, bid, WEIGHTS[..k - 1], n);
      if before.Ok? {
        LastKind(buf, bid, k - 1, n, before.value.0);
      }
    }
  }

  lemma LastKind<T>(buf: Buffer<T>, bid: nat, i: nat, n: nat, rest: Buffer<T>)
    requires i < |WEIGHTS| && n > 0 && AllPresent(buf, bid, i, n) && TakenOut(buf, rest, bid, i)
    ensures var s := Slots(rest, bid, WEIGHTS[i], n);
            && (s.Ok? <==> AllPresent(buf, bid, i + 1, n))
            && (s.Ok? ==> s.value != [] && TakenOut(buf, rest - NamesOf(bid, WEIGHTS[i], n), bid, i + 1))
            && (s.Err? ==> exists x: nat :: FailsAtFirst(s.error, buf, bid, i, x, n))
  {
    var s := Slots(rest, bid, WEIGHTS[i], n);
    if s.Err? {
      var x := SlotsMissing(rest, bid, WEIGHTS[i], n);
      assert !Present(rest, bid, i, x);
      assert forall y: nat :: y < x ==> Present(rest, bid, i, y);
      assert FailsAtFirst(s.error, buf, bid, i, x, n);
    } else {
      assert forall x: nat :: x < n ==> Present(rest, bid, i, x);
    }
  }

  /**
   When an arrival raises: when its layer does not exist, or when the layer's buffer is long enough
   to be merged and yet some name is missing; the error names the first one.
   */
  lemma RaisesFor<T>(bufs: seq<Buffer<T>>, n: nat, a: Arrival<T>)
    requires n > 0
    ensures a.bid >= |bufs| ==> Step(bufs, n, a) == Err(NoSuchLayer)
    ensures a.bid < |bufs| ==>
              var buf, s := bufs[a.bid][a.name := a.data], Step(bufs, n, a);
              && (s.Err? <==> |buf| >= n * 3 && !AllPresent(buf, a.bid, |WEIGHTS|, n))
              && (s.Err? ==> exists i: nat, x: nat :: FailsAtFirst(s.error, buf, a.bid, i, x, n))
  {
    if a.bid < |bufs| {
      var buf := bufs[a.bid][a.name := a.data];
      MergeMissing(buf, a.bid, |WEIGHTS|, n);
      assert WEIGHTS[..|WEIGHTS|] == WEIGHTS;
    }
  }
}
