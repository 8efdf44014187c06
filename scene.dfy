/** The render-pass order of a scene: passes are kept deepest first, equal
    depths in the order they were added, and every frame phase visits them
    in that order.  A pass is known by its identity only; what its own
    `update`, `prepare` and `draw` do is foreign to the scene and is
    recorded as a call. */
module SceneOrder {

  /** The identity of a render-pass object. */
  type PassId = nat

  /** One entry of the depth list: a pass and the depth it was added at. */
  datatype Entry = Entry(pass: PassId, depth: real)

  /** The depth a pass gets when none is given. */
  const DefaultDepth: real := 0.5

  /** Deepest first: depth never increases along the list. */
  ghost predicate SortedDesc(s: seq<Entry>)
  {
    forall i, j :: 0 <= i < j < |s| ==> s[i].depth >= s[j].depth
  }

  /** Inserts `x` into a list after every entry at least as deep as `x`
      that ends it, scanning from the back: what a stable deepest-first sort
      does with one new last element. */
  function Insert(s: seq<Entry>, x: Entry): (r: seq<Entry>)
    ensures |r| == |s| + 1
  {
    if s == [] then [x]
    else if s[|s| - 1].depth >= x.depth then s + [x]
    else Insert(s[..|s| - 1], x) + [s[|s| - 1]]
  }

  /** The stable deepest-first sort of the list, as insertion sort. */
  function SortByDepth(s: seq<Entry>): (r: seq<Entry>)
    ensures |r| == |s|
  {
    if s == [] then [] else Insert(SortByDepth(s[..|s| - 1]), s[|s| - 1])
  }

  /** The entries of depth `d`, in list order. */
  function AtDepth(s: seq<Entry>, d: real): (r: seq<Entry>)
    ensures |r| <= |s|
  {
    if s == [] then []
    else AtDepth(s[..|s| - 1], d) + (if s[|s| - 1].depth == d then [s[|s| - 1]] else [])
  }

  /** The passes of a depth list, in list order. */
  function PassesOf(s: seq<Entry>): (r: seq<PassId>)
    ensures |r| == |s| && forall i :: 0 <= i < |s| ==> r[i] == s[i].pass
  {
    seq(|s|, i requires 0 <= i < |s| => s[i].pass)
  }

  /** Inserting keeps a lower bound every entry and `x` already meet. */
  lemma {:induction false} InsertAbove(s: seq<Entry>, x: Entry, b: real)
    requires forall k :: 0 <= k < |s| ==> s[k].depth >= b
    requires x.depth >= b
    ensures forall k :: 0 <= k < |s| + 1 ==> Insert(s, x)[k].depth >= b
    decreases |s|
  {
    if s != [] && s[|s| - 1].depth < x.depth {
      InsertAbove(s[..|s| - 1], x, b);
    }
  }

  /** Inserting into a deepest-first list keeps it deepest first. */
  lemma {:induction false} InsertSorted(s: seq<Entry>, x: Entry)
    requires SortedDesc(s)
    ensures SortedDesc(Insert(s, x))
    decreases |s|
  {
    if s != [] && s[|s| - 1].depth < x.depth {
      var p := s[..|s| - 1];
      var last := s[|s| - 1];
      InsertSorted(p, x);
      InsertAbove(p, x, last.depth);
      var r := Insert(p, x);
      assert Insert(s, x) == r + [last];
      forall i, j | 0 <= i < j < |r| + 1
        ensures (r + [last])[i].depth >= (r + [last])[j].depth
      {
        if j < |r| {
          assert (r + [last])[j] == r[j];
        }
      }
    }
  }

  /** Inserting adds `x` and keeps every other entry. */
  lemma {:induction false} InsertPerm(s: seq<Entry>, x: Entry)
    ensures multiset(Insert(s, x)) == multiset(s) + multiset{x}
    decreases |s|
  {
    if s != [] && s[|s| - 1].depth < x.depth {
      var p := s[..|s| - 1];
      InsertPerm(p, x);
      assert s == p + [s[|s| - 1]];
    }
  }

  /** A stable insertion: at each depth the new entry comes after the ones
      already there, and other depths keep their order. */
  lemma {:induction false} InsertAtDepth(s: seq<Entry>, x: Entry, d: real)
    ensures AtDepth(Insert(s, x), d) == AtDepth(s, d) + (if x.depth == d then [x] else [])
    decreases |s|
  {
    if s == [] {
    } else if s[|s| - 1].depth >= x.depth {
      assert (s + [x])[..|s|] == s;
    } else {
      var p := s[..|s| - 1];
      var last := s[|s| - 1];
      InsertAtDepth(p, x, d);
      var r := Insert(p, x);
      assert (r + [last])[..|r|] == r;
    }
  }

  /** The sort orders the list deepest first and keeps every entry. */
  lemma {:induction false} SortByDepthSorted(s: seq<Entry>)
    ensures SortedDesc(SortByDepth(s))
    ensures multiset(SortByDepth(s)) == multiset(s)
    decreases |s|
  {
    if s != [] {
      var p := s[..|s| - 1];
      SortByDepthSorted(p);
      InsertSorted(SortByDepth(p), s[|s| - 1]);
      InsertPerm(SortByDepth(p), s[|s| - 1]);
      assert s == p + [s[|s| - 1]];
    }
  }

  /** The sort is stable: at every depth, entries keep their list order. */
  lemma {:induction false} SortByDepthStable(s: seq<Entry>, d: real)
    ensures AtDepth(SortByDepth(s), d) == AtDepth(s, d)
    decreases |s|
  {
    if s != [] {
      var p := s[..|s| - 1];
      SortByDepthStable(p, d);
      InsertAtDepth(SortByDepth(p), s[|s| - 1], d);
    }
  }

  /** Sorting a list that is already deepest first changes nothing. */
  lemma {:induction false} SortedUnchanged(s: seq<Entry>)
    requires SortedDesc(s)
    ensures SortByDepth(s) == s
    decreases |s|
  {
    if s != [] {
      var p := s[..|s| - 1];
      SortedUnchanged(p);
      assert s == p + [s[|s| - 1]];
      if p != [] {
        assert p[|p| - 1] == s[|s| - 2];
      }
    }
  }

  /** Sorting the insertion history after one more entry is inserting
      that entry into the sorted history. */
  lemma SortAfterPush(h: seq<Entry>, x: Entry)
    ensures SortByDepth(SortByDepth(h) + [x]) == Insert(SortByDepth(h), x)
    ensures SortByDepth(h + [x]) == Insert(SortByDepth(h), x)
  {
    var s := SortByDepth(h);
    SortByDepthSorted(h);
    SortedUnchanged(s);
    assert (s + [x])[..|s|] == s;
    assert (h + [x])[..|h|] == h;
  }

  /** The pass list rebuilt from the depth list, one pass per entry. */
  method PassList(ds: seq<Entry>) returns (ps: seq<PassId>)
    ensures |ps| == |ds| && forall i :: 0 <= i < |ds| ==> ps[i] == ds[i].pass
  {
    ps := [];
    for i := 0 to |ds|
      invariant |ps| == i && forall k :: 0 <= k < i ==> ps[k] == ds[k].pass
    {
      ps := ps + [ds[i].pass];
    }
  }

  /** A frame phase, as handed to each pass. */
  datatype Phase = Update(dt: real) | Prepare | Draw

  /** One call of a pass's own phase method. */
  datatype Call = Call(pass: PassId, phase: Phase)

  /** The calls of one phase over `passes`, in order. */
  function Round(passes: seq<PassId>, phase: Phase): (r: seq<Call>)
    ensures |r| == |passes| && forall i :: 0 <= i < |passes| ==> r[i] == Call(passes[i], phase)
  {
    seq(|passes|, i requires 0 <= i < |passes| => Call(passes[i], phase))
  }

  /** The render passes' own methods, which the scene only calls; each call
      is recorded in order. */
  class PassCalls {
    var log: seq<Call>

    constructor ()
      ensures log == []
    {
      log := [];
    }

    method Run(pass: PassId, phase: Phase)
      modifies this
      ensures log == old(log) + [Call(pass, phase)]
    {
      log := log + [Call(pass, phase)];
    }
  }

  class Scene {
    /** The depth list, deepest first. */
    var passDepths: seq<Entry>
    /** The passes of the depth list, in its order. */
    var passes: seq<PassId>
    /** Every entry ever added, in the order of the calls. */
    ghost var History: seq<Entry>

    /** The depth list is the stable deepest-first sort of the additions,
        and the pass list mirrors it. */
    ghost predicate Valid()
      reads this
    {
      passDepths == SortByDepth(History) && passes == PassesOf(passDepths)
    }

    constructor ()
      ensures Valid() && History == [] && passes == []
    {
      passDepths := [];
      passes := [];
      History := [];
    }

    /** `addPass`: the pass goes on the end of the depth list, the list is
        sorted deepest first (a stable sort), and the pass list is rebuilt
        from it. */
    method AddPass(pass: PassId, depth: real := DefaultDepth)
      requires Valid()
      modifies this
      ensures Valid() && History == old(History) + [Entry(pass, depth)]
      ensures passDepths == Insert(old(passDepths), Entry(pass, depth))
    {
      var e := Entry(pass, depth);
      SortAfterPush(History, e);
      passDepths := SortByDepth(passDepths + [e]);
      History := History + [e];
      passes := PassList(passDepths);
    }

    /** `addPass` without a depth puts the pass at the default depth. */
    method AddPassAtDefault(pass: PassId)
      requires Valid()
      modifies this
      ensures Valid() && History == old(History) + [Entry(pass, 0.5)]
    {
      AddPass(pass);
    }

    /** One phase over the passes, in the order of the pass list. */
    method Visit(calls: PassCalls, phase: Phase)
      modifies calls
      ensures calls.log == old(calls.log) + Round(passes, phase)
    {
      for i := 0 to |passes|
        invariant calls.log == old(calls.log) + Round(passes[..i], phase)
      {
        calls.Run(passes[i], phase);
        assert Round(passes[..i + 1], phase) == Round(passes[..i], phase) + [Call(passes[i], phase)];
      }
      assert passes[..|passes|] == passes;
    }

    /** `update`: every pass updates, in pass order. */
    method Update(calls: PassCalls, dt: real)
      modifies calls
      ensures calls.log == old(calls.log) + Round(passes, Phase.Update(dt))
    {
      Visit(calls, Phase.Update(dt));
    }

    /** `prepare`: every pass prepares, in pass order. */
    method Prepare(calls: PassCalls)
      modifies calls
      ensures calls.log == old(calls.log) + Round(passes, Phase.Prepare)
    {
      Visit(calls, Phase.Prepare);
    }

    /** `draw`: every pass draws, in pass order. */
    method Draw(calls: PassCalls)
      modifies calls
      ensures calls.log == old(calls.log) + Round(passes, Phase.Draw)
    {
      Visit(calls, Phase.Draw);
    }
  }

  /** What a valid scene promises about its order: the passes are those
      ever added, each as often as it was added; they run deepest first;
      and passes of equal depth run in the order they were added. */
  lemma PassOrder(history: seq<Entry>)
    ensures multiset(SortByDepth(history)) == multiset(history)
    ensures SortedDesc(SortByDepth(history))
    ensures forall d: real :: AtDepth(SortByDepth(history), d) == AtDepth(history, d)
  {
    SortByDepthSorted(history);
    forall d: real
      ensures AtDepth(SortByDepth(history), d) == AtDepth(history, d)
    {
      SortByDepthStable(history, d);
    }
  }
}
