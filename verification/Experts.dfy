/**
 Gathering expert weights that arrive in any order (convert_hf_to_gguf.py, LlamaModel.modify_tensors
 and LlamaModel.prepare_tensors).
 */
module Experts {
  import opened Wrappers

  datatype Weight = W1 | W2 | W3

  const WEIGHTS: seq<Weight> := [W1, W2, W3]

  /** The name of an expert's weight in a layer, or some other name with "block_sparse_moe.experts" in it. */
  datatype Name = Expert(layer: nat, xid: nat, wid: Weight) | Odd(text: string)

  type Buffer<T> = map<Name, T>

  /** A merged tensor before stacking: slot `x` holds what expert `x` will be. */
  datatype Merged<T> = Merged(layer: nat, wid: Weight, slots: seq<T>)

  datatype Error = NoSuchLayer | NameMissing(name: Name) | NothingToStack | Unprocessed(names: set<Name>)

  datatype Arrival<T> = Arrival(name: Name, bid: nat, data: T)

  // ---------------------------------------------------------------- one arrival

  /** The first `n` experts' weights of one kind, or the first name that is missing. */
  function Slots<T>(buf: Buffer<T>, bid: nat, w: Weight, n: nat): (r: Result<seq<T>, Error>)
    ensures r.Ok? <==> forall x: nat :: x < n ==> Expert(bid, x, w) in buf
    ensures r.Ok? ==> |r.value| == n && forall x: nat :: x < n ==> r.value[x] == buf[Expert(bid, x, w)]
  {
    if n == 0 then Ok([])
    else
      match Slots(buf, bid, w, n - 1)
      case Err(e) => Err(e)
      case Ok(s) => if Expert(bid, n - 1, w) in buf then Ok(s + [buf[Expert(bid, n - 1, w)]])
          else Err(NameMissing(Expert(bid, n - 1, w)))
  }

  function NamesOf(bid: nat, w: Weight, n: nat): (s: set<Name>)
    ensures forall k :: k in s <==> k.Expert? && k.layer == bid && k.wid == w && k.xid < n
  {
    set x: nat | x < n :: Expert(bid, x, w)
  }

  /** Merging the kinds `ws` of weights in turn, taking them out of the buffer. */
  function Merge<T>(buf: Buffer<T>, bid: nat, ws: seq<Weight>, n: nat): Result<(Buffer<T>, seq<Merged<T>>), Error> {
    if ws == [] then Ok((buf, []))
    else
      match Merge(buf, bid, ws[..|ws| - 1], n)
      case Err(e) => Err(e)
      case Ok((rest, done)) =>
        var w := ws[|ws| - 1];
        match Slots(rest, bid, w, n)
        case Err(e) => Err(e)
        case Ok(s) => if s == [] then Err(NothingToStack)
            else Ok((rest - NamesOf(bid, w, n), done + [Merged(bid, w, s)]))
  }

  /** What one arrival does to the buffers, and what it emits. */
  function Step<T>(bufs: seq<Buffer<T>>, n: nat, a: Arrival<T>): Result<(seq<Buffer<T>>, seq<Merged<T>>), Error> {
    if a.bid >= |bufs| then Err(NoSuchLayer)
    else
      var buf := bufs[a.bid][a.name := a.data];
      if |buf| < n * 3 then Ok((bufs[a.bid := buf], []))
      else
        match Merge(buf, a.bid, WEIGHTS, n)
        case Err(e) => Err(e)
        case Ok((rest, out)) => Ok((bufs[a.bid := rest], out))
  }

  function NoBuffers<T>(blocks: nat): (r: seq<Buffer<T>>)
    ensures |r| == blocks && forall l :: 0 <= l < blocks ==> r[l] == map[]
  {
    seq(blocks, _ => map[])
  }

  /** All arrivals in turn. */
  function Run<T>(es: seq<Arrival<T>>, blocks: nat, n: nat): (r: Result<(seq<Buffer<T>>, seq<Merged<T>>), Error>)
  {
    if es == [] then Ok((NoBuffers(blocks), []))
    else
      match Run(es[..|es| - 1], blocks, n)
      case Err(e) => Err(e)
      case Ok((bufs, out)) =>
        match Step(bufs, n, es[|es| - 1])
        case Err(e) => Err(e)
        case Ok((bufs', more)) => Ok((bufs', out + more))
  }

  // ---------------------------------------------------------------- the program's state

  class Gatherer<T> {
    const blockCount: nat
    const numExperts: nat
    var experts: Option<seq<Buffer<T>>>

    /** The buffers, which the program creates with the first expert tensor. */
    ghost function Buffers(): (r: seq<Buffer<T>>)
      reads this
    {
      match experts
      case None => NoBuffers(blockCount)
      case Some(b) => b
    }

    constructor (blockCount: nat, numExperts: nat)
      ensures this.blockCount == blockCount && this.numExperts == numExperts && experts == None
    {
      this.blockCount := blockCount;
      this.numExperts := numExperts;
      experts := None;
    }

    /** One kind of weight for all experts of a layer, taken out of its buffer (the inner loop). */
    method TakeExperts(bid: nat, w: Weight) returns (r: Result<seq<T>, Error>)
      requires experts.Some? && bid < |experts.value|
      modifies this`experts
      ensures r == Slots(old(experts.value[bid]), bid, w, numExperts)
      ensures r.Ok? ==>
                experts == Some(old(experts.value)[bid := old(experts.value[bid]) - NamesOf(bid, w, numExperts)])
    {
      ghost var before := experts.value[bid];
      var datas: seq<T> := [];
      var x := 0;
      assert before - NamesOf(bid, w, 0) == before && experts.value[bid := before] == experts.value;
      while x < numExperts
        invariant 0 <= x <= numExperts
        invariant Slots(before, bid, w, x) == Ok(datas)
        invariant experts == Some(old(experts.value)[bid := before - NamesOf(bid, w, x)])
      {
        var name := Expert(bid, x, w);
        var buf := experts.value[bid];
        if name !in buf {
          MissingStays(before, bid, w, x + 1, numExperts);
          return Err(NameMissing(name));
        }
        datas := datas + [buf[name]];
        TakeOne(before, bid, w, x);
        experts := Some(experts.value[bid := buf - {name}]);
        UpdateTwice(old(experts.value), bid, buf, buf - {name});
        x := x + 1;
      }
      return Ok(datas);
    }

    /** The three kinds in turn. */
    method MergeExperts(bid: nat) returns (r: Result<seq<Merged<T>>, Error>)
      requires experts.Some? && bid < |experts.value|
      modifies this`experts
      ensures var s := Merge(old(experts.value[bid]), bid, WEIGHTS, numExperts);
              && (r.Ok? <==> s.Ok?)
              && (r.Ok? ==> experts == Some(old(experts.value)[bid := s.value.0]) && r.value == s.value.1)
              && (r.Err? ==> r.error == s.error)
    {
      ghost var start := experts.value[bid];
      var tensors: seq<Merged<T>> := [];
      var i := 0;
      while i < |WEIGHTS|
        invariant 0 <= i <= |WEIGHTS|
        invariant experts.Some? && bid < |experts.value|
                  && experts.value == old(experts.value)[bid := experts.value[bid]]
        invariant Merge(start, bid, WEIGHTS[..i], numExperts) == Ok((experts.value[bid], tensors))
      {
        MergeOneMore(start, bid, i, numExperts, experts.value[bid], tensors);
        var datas := TakeExperts(bid, WEIGHTS[i]);
        if datas.Err? {
          MissingFails(start, bid, i + 1, numExperts, datas.error);
          return Err(datas.error);
        }
        if datas.value == [] {
          MissingFails(start, bid, i + 1, numExperts, NothingToStack);
          return Err(NothingToStack);
        }
        tensors := tensors + [Merged(bid, WEIGHTS[i], datas.value)];
        i := i + 1;
      }
      assert WEIGHTS[..i] == WEIGHTS;
      return Ok(tensors);
    }

    /** The expert branch of modify_tensors. */
    method ModifyTensors(a: Arrival<T>) returns (r: Result<seq<Merged<T>>, Error>)
      modifies this`experts
      ensures var s := Step(old(Buffers()), numExperts, a);
              && (r.Ok? <==> s.Ok?)
              && (r.Ok? ==> experts == Some(s.value.0) && r.value == s.value.1)
              && (r.Err? ==> r.error == s.error)
    {
      if experts.None? {
        experts := Some(NoBuffers(blockCount));
      }
      var bufs := experts.value;
      if a.bid >= |bufs| {
        return Err(NoSuchLayer);
      }
      var buf := bufs[a.bid][a.name := a.data];
      experts := Some(bufs[a.bid := buf]);
      if |buf| < numExperts * 3 {
        return Ok([]);
      }
      r := MergeExperts(a.bid);
      assert r.Ok? ==> experts.value == bufs[a.bid := experts.value[a.bid]];
    }

    /** All names in the buffers, flattened. */
    static method NamesLeft(bufs: seq<Buffer<T>>) returns (left: set<Name>)
      ensures left == LeftOver(bufs)
    {
      left := {};
      var l := 0;
      while l < |bufs|
        invariant 0 <= l <= |bufs|
        invariant left == LeftOver(bufs[..l])
      {
        assert bufs[..l + 1][..l] == bufs[..l];
        left := left + bufs[l].Keys;
        l := l + 1;
      }
      assert bufs[..l] == bufs;
    }

    /** prepare_tensors: every arrival in turn, and then no name may be left over. */
    method PrepareTensors(es: seq<Arrival<T>>) returns (r: Result<seq<Merged<T>>, Error>)
      requires experts == None
      modifies this`experts
      ensures var s := Run(es, blockCount, numExperts);
              && (s.Err? ==> r == Err(s.error))
              && (s.Ok? ==> r == if LeftOver(s.value.0) == {} then Ok(s.value.1)
                  else Err(Unprocessed(LeftOver(s.value.0))))
    {
      hide NoBuffers, Step, LeftOver;
      var out: seq<Merged<T>> := [];
      var i := 0;
      while i < |es|
        invariant 0 <= i <= |es|
        invariant Run(es[..i], blockCount, numExperts) == Ok((Buffers(), out))
      {
        assert es[..i + 1][..i] == es[..i];
        var more := ModifyTensors(es[i]);
        if more.Err? {
          RunFails(es, i + 1, blockCount, numExperts, more.error);
          return Err(more.error);
        }
        out := out + more.value;
        i := i + 1;
      }
      assert es[..i] == es;
      if experts.Some? {
        var left := NamesLeft(experts.value);
        if left != {} {
          return Err(Unprocessed(left));
        }
      } else {
        NothingLeft<T>(blockCount);
      }
      return Ok(out);
    }
  }

  lemma TakeOne<T>(buf: Buffer<T>, bid: nat, w: Weight, x: nat)
    ensures buf - NamesOf(bid, w, x) - {Expert(bid, x, w)} == buf - NamesOf(bid, w, x + 1)
  {
  }

  lemma UpdateTwice<T>(s: seq<T>, i: nat, x: T, y: T)
    requires i < |s|
    ensures s[i := x][i := y] == s[i := y]
  {
  }

  /** The names still in some buffer. */
  function LeftOver<T>(bufs: seq<Buffer<T>>): (s: set<Name>)
    ensures s == {} <==> forall l :: 0 <= l < |bufs| ==> bufs[l] == map[]
    ensures forall k :: k in s <==> exists l :: 0 <= l < |bufs| && k in bufs[l]
  {
    if bufs == [] then {}
    else
      var init, last := bufs[..|bufs| - 1], bufs[|bufs| - 1];
      assert last.Keys == {} <==> last == map[];
      LeftOver(init) + last.Keys
  }

  lemma NothingLeft<T>(blocks: nat)
    ensures LeftOver(NoBuffers<T>(blocks)) == {}
  {
  }

  lemma MergeOneMore<T>(buf: Buffer<T>, bid: nat, i: nat, n: nat, rest: Buffer<T>, done: seq<Merged<T>>)
    requires i < 3 && Merge(buf, bid, WEIGHTS[..i], n) == Ok((rest, done))
    ensures Merge(buf, bid, WEIGHTS[..i + 1], n) ==
            match Slots(rest, bid, WEIGHTS[i], n)
            case Err(e) => Err(e)
            case Ok(s) => if s == [] then Err(NothingToStack)
                else Ok((rest - NamesOf(bid, WEIGHTS[i], n), done + [Merged(bid, WEIGHTS[i], s)]))
  {
    assert WEIGHTS[..i + 1][..i] == WEIGHTS[..i] && WEIGHTS[..i + 1][i] == WEIGHTS[i];
  }

  lemma {:induction false} RunFails<T>(es: seq<Arrival<T>>, i: nat, blocks: nat, n: nat, e: Error)
    requires i <= |es| && Run(es[..i], blocks, n) == Err(e)
    ensures Run(es, blocks, n) == Err(e)
    decreases |es| - i
  {
    if i == |es| {
      assert es[..i] == es;
    } else {
      assert es[..i + 1][..i] == es[..i];
      RunFails(es, i + 1, blocks, n, e);
    }
  }

  /** Once a name is missing the error stays the same. */
  lemma {:induction false} MissingStays<T>(buf: Buffer<T>, bid: nat, w: Weight, m: nat, n: nat)
    requires m <= n && Slots(buf, bid, w, m).Err?
    ensures Slots(buf, bid, w, n) == Slots(buf, bid, w, m)
    decreases n
  {
    if m < n {
      MissingStays(buf, bid, w, m, n - 1);
    }
  }

  lemma {:induction false} MissingFails<T>(buf: Buffer<T>, bid: nat, i: nat, n: nat, e: Error)
    requires i <= 3 && Merge(buf, bid, WEIGHTS[..i], n) == Err(e)
    ensures Merge(buf, bid, WEIGHTS, n) == Err(e)
    decreases 3 - i
  {
    if i == 3 {
      assert WEIGHTS[..i] == WEIGHTS;
    } else {
      assert WEIGHTS[..i + 1][..i] == WEIGHTS[..i];
      MissingFails(buf, bid, i + 1, n, e);
    }
  }
}
