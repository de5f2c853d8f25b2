/** The first half of `orderDirectedGraph`: Tarjan's strongly connected components with an explicit
    stack of visit frames in place of recursion. */
module StrongComponents {
  import opened Orders
  import opened Graphs

  datatype VisitFrame<T> = VisitFrame(value: T, laterValues: seq<T>, nextLater: nat)

  /** The search's mutable maps and stacks, bundled so that the invariant can speak about them. */
  datatype Search<!T(==)> = Search(
    index: map<T, nat>, low: map<T, nat>, stack: seq<T>, stacked: set<T>, nextIndex: nat)

  ghost function At<T>(numbers: map<T, nat>, v: T): int {
    if v in numbers then numbers[v] else -1
  }

  /** `of` numbers the nodes already placed in a component. A visited node is either placed or on the
      stack, and the stack is ordered by visit number. */
  ghost predicate Numbered<T(!new)>(g: Graph<T>, s: Search<T>, placed: set<T>) {
    && s.index.Keys == s.low.Keys && s.index.Keys <= g.after.Keys
    && s.index.Keys == placed + s.stacked && placed !! s.stacked
    && (forall v :: v in s.index ==> s.index[v] < s.nextIndex)
    && (forall v {:trigger v in s.stack} :: v in s.stack <==> v in s.stacked)
    && (forall i :: 0 <= i < |s.stack| ==> s.stack[i] in s.stacked)
    && (forall i, j :: 0 <= i < j < |s.stack| ==> At(s.index, s.stack[i]) < At(s.index, s.stack[j]))
  }

  /** The finished components partition the placed nodes. Their edges only lead to components finished no
      later, which makes the list a reverse topological order, and their nodes reach one another. */
  ghost predicate Collected<T(!new)>(g: Graph<T>, components: seq<seq<T>>, of: map<T, nat>) {
    && (forall v :: v in of ==> of[v] < |components| && v in components[of[v]])
    && (forall c, v :: 0 <= c < |components| && v in components[c] ==> v in of && of[v] == c)
    && (forall c :: 0 <= c < |components| ==> components[c] != [] && Distinct(components[c]))
    && (forall v, w {:trigger Edge(g, v, w)} :: v in of && Edge(g, v, w) ==> w in of && of[w] <= of[v])
    && (forall u, v {:trigger Reaches(g, u, v)} :: u in of && v in of && of[u] == of[v] ==> Reaches(g, u, v))
  }

  /** `path` lists the nodes of the frames: stacked nodes in visit order. */
  ghost predicate OnPath<T>(s: Search<T>, path: seq<T>) {
    && (forall k :: 0 <= k < |path| ==> path[k] in s.stacked)
    && (forall k, l :: 0 <= k < l < |path| ==> At(s.index, path[k]) < At(s.index, path[l]))
  }

  /** A frame walks the successors of its node and has visited those it has passed. */
  ghost predicate FrameOk<T>(g: Graph<T>, index: map<T, nat>, frame: VisitFrame<T>, v: T) {
    && frame.value == v && v in g.after && frame.laterValues == g.after[v]
    && frame.nextLater <= |frame.laterValues|
    && (forall j :: 0 <= j < frame.nextLater ==> frame.laterValues[j] in index)
  }

  ghost predicate Framed<T>(g: Graph<T>, index: map<T, nat>, frames: seq<VisitFrame<T>>, path: seq<T>) {
    && |frames| == |path|
    && (forall k {:trigger frames[k]} {:trigger path[k]} :: 0 <= k < |frames| ==> FrameOk(g, index, frames[k], path[k]))
  }

  /** Everything after a node that no frame holds any more has been visited. */
  ghost predicate Explored<T(!new)>(g: Graph<T>, index: map<T, nat>, path: seq<T>) {
    forall v, w {:trigger Edge(g, v, w)} :: v in index && v !in path && Edge(g, v, w) ==> w in index
  }

  /** `y` reaches a node that is still being visited and was numbered no later than `y`. */
  ghost predicate Anchored<T(!new)>(g: Graph<T>, index: map<T, nat>, path: seq<T>, y: T) {
    exists k :: 0 <= k < |path| && At(index, path[k]) <= At(index, y) && Reaches(g, y, path[k])
  }

  ghost predicate Ascending<T(!new)>(g: Graph<T>, s: Search<T>) {
    forall x, y {:trigger Reaches(g, x, y)} :: x in s.stacked && y in s.stacked && At(s.index, x) <= At(s.index, y) ==> Reaches(g, x, y)
  }

  ghost predicate AllAnchored<T(!new)>(g: Graph<T>, s: Search<T>, path: seq<T>) {
    forall y {:trigger Anchored(g, s.index, path, y)} :: y in s.stacked ==> Anchored(g, s.index, path, y)
  }

  /** `low` of `v` is the visit number of some stacked node that `v` reaches. */
  ghost predicate LowFound<T(!new)>(g: Graph<T>, s: Search<T>, v: T) {
    At(s.low, v) <= At(s.index, v) && exists w :: w in s.stacked && At(s.index, w) == At(s.low, v) && Reaches(g, v, w)
  }

  /** No edge from `v`, or from a node finished under `v` and before `limit`, leads to a stacked node
      below `low` of `v`; of the edges of `v` itself only those to `passed` count. */
  ghost predicate LowCovers<T(!new)>(g: Graph<T>, s: Search<T>, v: T, limit: int, passed: seq<T>) {
    forall y, w {:trigger Edge(g, y, w)} ::
      y in s.stacked && w in s.stacked && Edge(g, y, w) && At(s.index, v) <= At(s.index, y) < limit && (y == v ==> w in passed)
      ==> At(s.low, v) <= At(s.index, w)
  }

  ghost function Limit<T>(s: Search<T>, path: seq<T>, k: nat): int {
    if k + 1 < |path| then At(s.index, path[k + 1]) else s.nextIndex
  }

  ghost function Passed<T>(frame: VisitFrame<T>): seq<T> {
    if frame.nextLater <= |frame.laterValues| then frame.laterValues[..frame.nextLater] else []
  }

  ghost predicate LowOk<T(!new)>(g: Graph<T>, s: Search<T>, frames: seq<VisitFrame<T>>, path: seq<T>, k: nat) {
    k < |path| && k < |frames| ==>
      LowFound(g, s, path[k]) && LowCovers(g, s, path[k], Limit(s, path, k), Passed(frames[k]))
  }

  ghost predicate Lows<T(!new)>(g: Graph<T>, s: Search<T>, frames: seq<VisitFrame<T>>, path: seq<T>) {
    forall k: nat {:trigger LowOk(g, s, frames, path, k)} :: LowOk(g, s, frames, path, k)
  }

  /** What holds whenever the inner loop tests its condition. */
  ghost predicate Searching<T(!new)>(g: Graph<T>, s: Search<T>, frames: seq<VisitFrame<T>>, path: seq<T>, placed: set<T>) {
    && Numbered(g, s, placed)
    && OnPath(s, path) && Framed(g, s.index, frames, path) && Explored(g, s.index, path)
    && Ascending(g, s) && AllAnchored(g, s, path) && Lows(g, s, frames, path)
  }

  function Started<T>(s: Search<T>, v: T): Search<T> {
    s.(index := s.index[v := s.nextIndex], low := s.low[v := s.nextIndex],
       stack := s.stack + [v], stacked := s.stacked + {v}, nextIndex := s.nextIndex + 1)
  }

  function Stepped<T>(frames: seq<VisitFrame<T>>): (r: seq<VisitFrame<T>>)
    requires frames != []
  {
    var top := frames[|frames| - 1];
    frames[..|frames| - 1] + [top.(nextLater := top.nextLater + 1)]
  }

  // Opening a frame on an unvisited node: a root, or the node the top frame looks at next.

  lemma StartNumbered<T(!new)>(g: Graph<T>, s: Search<T>, placed: set<T>, v: T)
    requires Numbered(g, s, placed) && v in g.after && v !in s.index
    ensures Numbered(g, Started(s, v), placed)
  {
    var s' := Started(s, v);
    forall i, j | 0 <= i < j < |s'.stack|
      ensures At(s'.index, s'.stack[i]) < At(s'.index, s'.stack[j])
    {
      assert s'.stack[i] == s.stack[i] && s.stack[i] in s.stacked;
      if j < |s.stack| { assert s.stack[j] in s.stacked; }
    }
  }

  lemma StartOnPath<T(!new)>(g: Graph<T>, s: Search<T>, path: seq<T>, placed: set<T>, v: T)
    requires Numbered(g, s, placed) && OnPath(s, path) && v !in s.index
    ensures OnPath(Started(s, v), path + [v])
  {
    assert forall k :: 0 <= k < |path| ==> path[k] in s.stacked;
  }

  lemma StartFramed<T(!new)>(g: Graph<T>, index: map<T, nat>, frames: seq<VisitFrame<T>>, path: seq<T>, v: T, n: nat)
    requires Framed(g, index, frames, path) && v in g.after
    ensures Framed(g, index[v := n], frames + [VisitFrame(v, g.after[v], 0)], path + [v])
  {
    forall k | 0 <= k < |frames|
      ensures FrameOk(g, index[v := n], frames[k], path[k])
    {
    }
  }

  lemma SteppedFramed<T(!new)>(g: Graph<T>, index: map<T, nat>, frames: seq<VisitFrame<T>>, path: seq<T>)
    requires frames != [] && |frames| == |path|
    requires forall k :: 0 <= k < |frames| ==> FrameOk(g, index, frames[k], path[k])
    requires var top := frames[|frames| - 1];
      top.nextLater < |top.laterValues| && top.laterValues[top.nextLater] in index
    ensures Framed(g, index, Stepped(frames), path)
  {
    var frames' := Stepped(frames);
    forall k | 0 <= k < |frames'|
      ensures FrameOk(g, index, frames'[k], path[k])
    {
      assert FrameOk(g, index, frames[k], path[k]);
    }
  }

  lemma StartExplored<T(!new)>(g: Graph<T>, index: map<T, nat>, path: seq<T>, v: T, n: nat)
    requires Explored(g, index, path)
    ensures Explored(g, index[v := n], path + [v])
  {
  }

  lemma AnchorReachesTop<T(!new)>(g: Graph<T>, s: Search<T>, path: seq<T>, x: T)
    requires OnPath(s, path) && Ascending(g, s) && AllAnchored(g, s, path) && x in s.stacked
    ensures path != [] && Reaches(g, x, path[|path| - 1])
  {
    assert Anchored(g, s.index, path, x);
    var k :| 0 <= k < |path| && At(s.index, path[k]) <= At(s.index, x) && Reaches(g, x, path[k]);
    var top := path[|path| - 1];
    ReachesSelf(g, top);
    if k < |path| - 1 {
      assert Reaches(g, path[k], top);
      ReachesTransitive(g, x, path[k], top);
    }
  }

  lemma StartAscending<T(!new)>(g: Graph<T>, s: Search<T>, path: seq<T>, placed: set<T>, v: T)
    requires Numbered(g, s, placed) && OnPath(s, path) && Ascending(g, s) && AllAnchored(g, s, path) && v !in s.index
    requires path != [] ==> Edge(g, path[|path| - 1], v)
    ensures Ascending(g, Started(s, v))
  {
    ReachesSelf(g, v);
    forall x | x in s.stacked
      ensures Reaches(g, x, v)
    {
      AnchorReachesTop(g, s, path, x);
      ReachesEdge(g, path[|path| - 1], v);
      ReachesTransitive(g, x, path[|path| - 1], v);
    }
  }

  lemma StartAnchored<T(!new)>(g: Graph<T>, s: Search<T>, path: seq<T>, placed: set<T>, v: T)
    requires Numbered(g, s, placed) && OnPath(s, path) && AllAnchored(g, s, path) && v !in s.index
    ensures AllAnchored(g, Started(s, v), path + [v])
  {
    var s' := Started(s, v);
    var path' := path + [v];
    forall y | y in s'.stacked
      ensures Anchored(g, s'.index, path', y)
    {
      if y == v {
        ReachesSelf(g, v);
        assert path'[|path|] == v;
      } else {
        assert Anchored(g, s.index, path, y);
        var k :| 0 <= k < |path| && At(s.index, path[k]) <= At(s.index, y) && Reaches(g, y, path[k]);
        assert path'[k] == path[k] && path[k] in s.stacked;
      }
    }
  }

  lemma StartLowFound<T(!new)>(g: Graph<T>, s: Search<T>, placed: set<T>, v: T, x: T)
    requires Numbered(g, s, placed) && v !in s.index
    requires x == v || (x in s.stacked && LowFound(g, s, x))
    ensures LowFound(g, Started(s, v), x)
  {
    var s' := Started(s, v);
    if x == v {
      ReachesSelf(g, v);
      assert v in s'.stacked;
    } else {
      var w :| w in s.stacked && At(s.index, w) == At(s.low, x) && Reaches(g, x, w);
      assert w in s'.stacked && At(s'.index, w) == At(s'.low, x);
    }
  }

  /** An edge to the newly stacked node only counts as passed for the frame that just found it, and the
      new node has the highest number of all. */
  lemma StartLowCovers<T(!new)>(g: Graph<T>, s: Search<T>, placed: set<T>, v: T, x: T, limit: int, passed: seq<T>)
    requires Numbered(g, s, placed) && v !in s.index && x in s.stacked
    requires LowFound(g, s, x) && limit <= s.nextIndex && LowCovers(g, s, x, limit, passed)
    ensures LowCovers(g, Started(s, v), x, limit, passed + [v])
  {
  }

  lemma StartLowOk<T(!new)>(g: Graph<T>, s: Search<T>, frames: seq<VisitFrame<T>>, path: seq<T>, placed: set<T>, v: T,
                            frames': seq<VisitFrame<T>>, k: nat)
    requires Numbered(g, s, placed) && OnPath(s, path) && v !in s.index
    requires k < |path| == |frames| && LowOk(g, s, frames, path, k)
    requires k < |frames'| && forall w :: w in Passed(frames'[k]) ==> w == v || w in Passed(frames[k])
    ensures LowOk(g, Started(s, v), frames', path + [v], k)
  {
    var x := path[k];
    StartLowFound(g, s, placed, v, x);
    assert k + 1 < |path| ==> path[k + 1] in s.stacked;
    StartLowCovers(g, s, placed, v, x, Limit(s, path, k), Passed(frames[k]));
    LowCoversFewer(g, Started(s, v), x, Limit(s, path, k), Passed(frames[k]) + [v], Passed(frames'[k]));
    assert Limit(Started(s, v), path + [v], k) == Limit(s, path, k);
  }

  lemma StartLows<T(!new)>(g: Graph<T>, s: Search<T>, frames: seq<VisitFrame<T>>, path: seq<T>, placed: set<T>, v: T,
                           frames': seq<VisitFrame<T>>)
    requires Numbered(g, s, placed) && OnPath(s, path) && |frames| == |path| && Lows(g, s, frames, path) && v !in s.index
    requires |frames'| == |frames| + 1 && Passed(frames'[|frames|]) == []
    requires forall k, w :: 0 <= k < |frames| && w in Passed(frames'[k]) ==> w == v || w in Passed(frames[k])
    ensures Lows(g, Started(s, v), frames', path + [v])
  {
    forall k: nat | k < |frames'|
      ensures LowOk(g, Started(s, v), frames', path + [v], k)
    {
      if k < |frames| {
        assert LowOk(g, s, frames, path, k);
        StartLowOk(g, s, frames, path, placed, v, frames', k);
      } else {
        StartLowFound(g, s, placed, v, v);
      }
    }
  }

  lemma LowCoversFewer<T(!new)>(g: Graph<T>, s: Search<T>, v: T, limit: int, passed: seq<T>, fewer: seq<T>)
    requires LowCovers(g, s, v, limit, passed) && forall w :: w in fewer ==> w in passed
    ensures LowCovers(g, s, v, limit, fewer)
  {
  }

  lemma SteppedPassed<T>(frames: seq<VisitFrame<T>>, v: T, k: nat, w: T)
    requires frames != [] && k < |frames|
    requires var top := frames[|frames| - 1]; top.nextLater < |top.laterValues| && top.laterValues[top.nextLater] == v
    requires w in Passed(Stepped(frames)[k])
    ensures w == v || w in Passed(frames[k])
  {
    if k == |frames| - 1 {
      var j :| 0 <= j < |Passed(Stepped(frames)[k])| && Passed(Stepped(frames)[k])[j] == w;
      if j < frames[k].nextLater { assert Passed(frames[k])[j] == w; }
    }
  }

  lemma StartRoot<T(!new)>(g: Graph<T>, s: Search<T>, placed: set<T>, v: T)
    requires Searching(g, s, [], [], placed) && v in g.after && v !in s.index
    ensures Searching(g, Started(s, v), [VisitFrame(v, g.after[v], 0)], [v], placed)
  {
    StartNumbered(g, s, placed, v);
    StartOnPath(g, s, [], placed, v);
    StartFramed(g, s.index, [], [], v, s.nextIndex);
    StartExplored(g, s.index, [], v, s.nextIndex);
    StartAscending(g, s, [], placed, v);
    StartAnchored(g, s, [], placed, v);
    StartLows(g, s, [], [], placed, v, [VisitFrame(v, g.after[v], 0)]);
    assert [] + [v] == [v] && [] + [VisitFrame(v, g.after[v], 0)] == [VisitFrame(v, g.after[v], 0)];
  }

  lemma StartLater<T(!new)>(g: Graph<T>, s: Search<T>, frames: seq<VisitFrame<T>>, path: seq<T>, placed: set<T>, v: T)
    requires Searching(g, s, frames, path, placed) && frames != [] && v in g.after && v !in s.index
    requires var top := frames[|frames| - 1]; top.nextLater < |top.laterValues| && top.laterValues[top.nextLater] == v
    ensures Searching(g, Started(s, v), Stepped(frames) + [VisitFrame(v, g.after[v], 0)], path + [v], placed)
  {
    var frame := VisitFrame(v, g.after[v], 0);
    assert FrameOk(g, s.index, frames[|frames| - 1], path[|path| - 1]);
    assert Edge(g, path[|path| - 1], v);
    StartNumbered(g, s, placed, v);
    StartOnPath(g, s, path, placed, v);
    StartExplored(g, s.index, path, v, s.nextIndex);
    StartAscending(g, s, path, placed, v);
    StartAnchored(g, s, path, placed, v);
    forall k, w | 0 <= k < |frames| && w in Passed((Stepped(frames) + [frame])[k])
      ensures w == v || w in Passed(frames[k])
    {
      SteppedPassed(frames, v, k, w);
    }
    StartLows(g, s, frames, path, placed, v, Stepped(frames) + [frame]);
    forall k | 0 <= k < |frames|
      ensures FrameOk(g, Started(s, v).index, frames[k], path[k])
    {
      assert FrameOk(g, s.index, frames[k], path[k]);
    }
    SteppedFramed(g, Started(s, v).index, frames, path);
    StartFramed(g, Started(s, v).index, Stepped(frames), path, v, s.nextIndex);
    assert Started(s, v).index[v := s.nextIndex] == Started(s, v).index;
  }

  // Looking at a node that has been visited before.

  function Lowered<T>(s: Search<T>, v: T, candidate: nat): (r: Search<T>)
    requires v in s.low
    ensures v in r.low && r.low[v] <= s.low[v]
  {
    s.(low := s.low[v := if candidate < s.low[v] then candidate else s.low[v]])
  }

  lemma LowFoundAt<T(!new)>(g: Graph<T>, s: Search<T>, v: T, w: T)
    requires v in s.low && w in s.stacked && w in s.index && LowFound(g, s, v) && Reaches(g, v, w)
    ensures LowFound(g, Lowered(s, v, s.index[w]), v)
  {
    var s' := Lowered(s, v, s.index[w]);
    if s.index[w] < s.low[v] {
      assert w in s'.stacked && At(s'.index, w) == At(s'.low, v);
    } else {
      var x :| x in s.stacked && At(s.index, x) == At(s.low, v) && Reaches(g, v, x);
      assert x in s'.stacked && At(s'.index, x) == At(s'.low, v);
    }
  }

  lemma LowOkElsewhere<T(!new)>(g: Graph<T>, s: Search<T>, frames: seq<VisitFrame<T>>, path: seq<T>, k: nat, v: T, candidate: nat)
    requires LowOk(g, s, frames, path, k) && v in s.low && (k < |path| ==> path[k] != v)
    ensures LowOk(g, Lowered(s, v, candidate), frames, path, k)
  {
    if k < |path| && k < |frames| {
      var s', x := Lowered(s, v, candidate), path[k];
      var w :| w in s.stacked && At(s.index, w) == At(s.low, x) && Reaches(g, x, w);
      assert w in s'.stacked && At(s'.index, w) == At(s'.low, x);
    }
  }

  lemma LoweredTopCovers<T(!new)>(g: Graph<T>, s: Search<T>, v: T, w: T, limit: int, passed: seq<T>)
    requires v in s.low && LowCovers(g, s, v, limit, passed)
    ensures w in s.index ==> LowCovers(g, Lowered(s, v, s.index[w]), v, limit, passed + [w])
    ensures w !in s.stacked ==> LowCovers(g, s, v, limit, passed + [w])
  {
  }

  lemma LaterSeen<T(!new)>(g: Graph<T>, s: Search<T>, frames: seq<VisitFrame<T>>, path: seq<T>, placed: set<T>, w: T)
    requires Searching(g, s, frames, path, placed) && frames != [] && w in s.index
    requires var top := frames[|frames| - 1]; top.nextLater < |top.laterValues| && top.laterValues[top.nextLater] == w
    ensures path[|path| - 1] in s.low
    ensures Searching(g, if w in s.stacked then Lowered(s, path[|path| - 1], s.index[w]) else s, Stepped(frames), path, placed)
  {
    var n := |frames| - 1;
    var v, top := path[n], frames[n];
    assert v in s.stacked;
    var s' := if w in s.stacked then Lowered(s, v, s.index[w]) else s;
    var frames' := Stepped(frames);
    forall k | 0 <= k < |frames|
      ensures FrameOk(g, s.index, frames[k], path[k])
    {
    }
    assert Edge(g, v, w);
    ReachesEdge(g, v, w);
    SteppedFramed(g, s.index, frames, path);
    forall k: nat | k < |frames|
      ensures LowOk(g, s', frames', path, k)
    {
      assert LowOk(g, s, frames, path, k);
      if k == n {
        if w in s.stacked { LowFoundAt(g, s, v, w); }
        LoweredTopCovers(g, s, v, w, Limit(s, path, n), Passed(top));
        assert forall x :: x in Passed(frames'[n]) ==> x == w || x in Passed(top) by {
          forall x | x in Passed(frames'[n]) ensures x == w || x in Passed(top) { SteppedPassed(frames, w, n, x); }
        }
        LowCoversFewer(g, s', v, Limit(s, path, n), Passed(top) + [w], Passed(frames'[n]));
      } else {
        assert At(s.index, path[k]) < At(s.index, path[n]);
        if w in s.stacked { LowOkElsewhere(g, s, frames, path, k, v, s.index[w]); }
        assert frames'[k] == frames[k];
      }
    }
    LaterSeenRest(g, s, s', path, placed);
  }

  /** Only `low` of a visited node changed. */
  lemma LaterSeenRest<T(!new)>(g: Graph<T>, s: Search<T>, s': Search<T>, path: seq<T>, placed: set<T>)
    requires Numbered(g, s, placed) && OnPath(s, path) && Ascending(g, s) && AllAnchored(g, s, path)
    requires s' == s.(low := s'.low) && s'.low.Keys == s.low.Keys
    ensures Numbered(g, s', placed) && OnPath(s', path) && Ascending(g, s') && AllAnchored(g, s', path)
  {
  }

  // Closing the top frame.

  ghost predicate TopDone<T>(frames: seq<VisitFrame<T>>, path: seq<T>) {
    && frames != [] && |frames| == |path|
    && frames[|frames| - 1].nextLater == |frames[|frames| - 1].laterValues|
  }

  lemma DoneTopExplored<T(!new)>(g: Graph<T>, s: Search<T>, frames: seq<VisitFrame<T>>, path: seq<T>, v: T)
    requires Framed(g, s.index, frames, path) && Explored(g, s.index, path) && TopDone(frames, path)
    requires v == path[|path| - 1]
    ensures Explored(g, s.index, path[..|path| - 1])
    ensures forall w :: Edge(g, v, w) ==> w in Passed(frames[|path| - 1]) && w in s.index
  {
    var n := |path| - 1;
    assert FrameOk(g, s.index, frames[n], v);
    assert path == path[..n] + [v];
    forall w | Edge(g, v, w)
      ensures w in Passed(frames[n]) && w in s.index
    {
      var j :| 0 <= j < |g.after[v]| && g.after[v][j] == w;
      assert Passed(frames[n])[j] == w;
    }
  }

  lemma CloseAnchored<T(!new)>(g: Graph<T>, s: Search<T>, path: seq<T>, placed: set<T>, y: T)
    requires Numbered(g, s, placed) && OnPath(s, path) && AllAnchored(g, s, path) && path != [] && y in s.stacked
    requires LowFound(g, s, path[|path| - 1]) && At(s.low, path[|path| - 1]) < At(s.index, path[|path| - 1])
    ensures Anchored(g, s.index, path[..|path| - 1], y)
  {
    var n := |path| - 1;
    var v, rest := path[n], path[..n];
    assert Anchored(g, s.index, path, y);
    var k :| 0 <= k < |path| && At(s.index, path[k]) <= At(s.index, y) && Reaches(g, y, path[k]);
    if k < n {
      assert rest[k] == path[k];
    } else {
      var w :| w in s.stacked && At(s.index, w) == At(s.low, v) && Reaches(g, v, w);
      assert Anchored(g, s.index, path, w);
      var l :| 0 <= l < |path| && At(s.index, path[l]) <= At(s.index, w) && Reaches(g, w, path[l]);
      ReachesTransitive(g, y, v, w);
      ReachesTransitive(g, y, w, path[l]);
      assert rest[l] == path[l];
    }
  }

  lemma CloseLowFound<T(!new)>(g: Graph<T>, s: Search<T>, v: T, parent: T)
    requires parent in s.low && v in s.low && LowFound(g, s, v) && LowFound(g, s, parent) && Reaches(g, parent, v)
    ensures LowFound(g, Lowered(s, parent, s.low[v]), parent)
  {
    var s' := Lowered(s, parent, s.low[v]);
    var w :| w in s.stacked && At(s.index, w) == At(s.low, v) && Reaches(g, v, w);
    ReachesTransitive(g, parent, v, w);
    var x :| x in s.stacked && At(s.index, x) == At(s.low, parent) && Reaches(g, parent, x);
    assert w in s'.stacked && x in s'.stacked;
  }

  /** The parent takes over the nodes finished under its child. */
  lemma CloseLowCovers<T(!new)>(g: Graph<T>, s: Search<T>, v: T, parent: T, passed: seq<T>, passedV: seq<T>, limit: int)
    requires v in s.low && parent in s.low && At(s.index, parent) < At(s.index, v)
    requires LowCovers(g, s, parent, At(s.index, v), passed) && LowCovers(g, s, v, limit, passedV)
    requires forall w :: Edge(g, v, w) ==> w in passedV
    ensures LowCovers(g, Lowered(s, parent, s.low[v]), parent, limit, passed)
  {
  }

  lemma CloseLows<T(!new)>(g: Graph<T>, s: Search<T>, frames: seq<VisitFrame<T>>, path: seq<T>, v: T, parent: T)
    requires |frames| == |path| > 1 && v == path[|path| - 1] && parent == path[|path| - 2]
    requires v in s.low && parent in s.low && OnPath(s, path) && Lows(g, s, frames, path) && Reaches(g, parent, v)
    requires forall w :: Edge(g, v, w) ==> w in Passed(frames[|path| - 1])
    ensures Lows(g, Lowered(s, parent, s.low[v]), frames[..|frames| - 1], path[..|path| - 1])
  {
    var n := |path| - 1;
    var s', frames', path' := Lowered(s, parent, s.low[v]), frames[..n], path[..n];
    assert LowOk(g, s, frames, path, n);
    forall k: nat | k < n
      ensures LowOk(g, s', frames', path', k)
    {
      assert LowOk(g, s, frames, path, k);
      if k == n - 1 {
        CloseLowFound(g, s, v, parent);
        CloseLowCovers(g, s, v, parent, Passed(frames[k]), Passed(frames[n]), s.nextIndex);
      } else {
        assert At(s.index, path[k]) < At(s.index, parent);
        LowOkElsewhere(g, s, frames, path, k, parent, s.low[v]);
        assert Limit(s', path', k) == Limit(s', path, k);
      }
    }
  }

  lemma CloseAllAnchored<T(!new)>(g: Graph<T>, s: Search<T>, path: seq<T>, placed: set<T>, v: T)
    requires Numbered(g, s, placed) && OnPath(s, path) && AllAnchored(g, s, path)
    requires path != [] && v == path[|path| - 1] && LowFound(g, s, v) && At(s.low, v) < At(s.index, v)
    ensures |path| > 1 && AllAnchored(g, s, path[..|path| - 1])
  {
    assert v in s.stacked;
    CloseAnchored(g, s, path, placed, v);
    forall y | y in s.stacked
      ensures Anchored(g, s.index, path[..|path| - 1], y)
    {
      CloseAnchored(g, s, path, placed, y);
    }
  }

  /** A finished node that reaches below itself stays on the stack, and its parent inherits its `low`. */
  lemma CloseMember<T(!new)>(g: Graph<T>, s: Search<T>, frames: seq<VisitFrame<T>>, path: seq<T>, placed: set<T>, v: T)
    requires Searching(g, s, frames, path, placed) && TopDone(frames, path)
    requires v == path[|path| - 1] && At(s.low, v) < At(s.index, v)
    ensures |path| > 1 && v in s.low && path[|path| - 2] in s.low
    ensures Searching(g, Lowered(s, path[|path| - 2], s.low[v]), frames[..|frames| - 1], path[..|path| - 1], placed)
  {
    assert LowOk(g, s, frames, path, |path| - 1);
    CloseAllAnchored(g, s, path, placed, v);
    var parent := path[|path| - 2];
    assert v in s.stacked && parent in s.stacked;
    DoneTopExplored(g, s, frames, path, v);
    CloseFramed(g, s, frames, path);
    AnchorReachesTop(g, s, path, parent);
    CloseLows(g, s, frames, path, v, parent);
    LaterSeenRest(g, s, Lowered(s, parent, s.low[v]), path[..|path| - 1], placed);
  }

  lemma CloseFramed<T(!new)>(g: Graph<T>, s: Search<T>, frames: seq<VisitFrame<T>>, path: seq<T>)
    requires Framed(g, s.index, frames, path) && OnPath(s, path) && path != []
    ensures Framed(g, s.index, frames[..|frames| - 1], path[..|path| - 1]) && OnPath(s, path[..|path| - 1])
  {
    var n := |path| - 1;
    forall k | 0 <= k < n
      ensures FrameOk(g, s.index, frames[..n][k], path[..n][k])
    {
      assert FrameOk(g, s.index, frames[k], path[k]);
    }
  }

  function Popped<T(!new)>(s: Search<T>, p: nat): Search<T>
    requires p <= |s.stack|
  {
    s.(stack := s.stack[..p], stacked := s.stacked - set x | x in s.stack[p..])
  }

  /** The stack from `v` upwards holds exactly the stacked nodes numbered no lower than `v`. */
  lemma Suffix<T(!new)>(g: Graph<T>, s: Search<T>, placed: set<T>, p: nat, y: T)
    requires Numbered(g, s, placed) && p < |s.stack|
    ensures y in s.stack[p..] <==> y in s.stacked && At(s.index, s.stack[p]) <= At(s.index, y)
  {
    if y in s.stack[p..] {
      var i :| 0 <= i < |s.stack| - p && s.stack[p..][i] == y;
      assert s.stack[p + i] == y;
    }
    if y in s.stacked && At(s.index, s.stack[p]) <= At(s.index, y) {
      assert y in s.stack;
      var i :| 0 <= i < |s.stack| && s.stack[i] == y;
      assert i >= p;
      assert s.stack[p..][i - p] == y;
    }
  }

  /** No edge leaves the finished component except into earlier ones. */
  lemma ComponentClosed<T(!new)>(g: Graph<T>, s: Search<T>, frames: seq<VisitFrame<T>>, path: seq<T>, placed: set<T>, v: T, y: T, w: T)
    requires Searching(g, s, frames, path, placed) && TopDone(frames, path)
    requires v == path[|path| - 1] && At(s.low, v) == At(s.index, v)
    requires y in s.stacked && At(s.index, v) <= At(s.index, y) && Edge(g, y, w)
    ensures w in placed || (w in s.stacked && At(s.index, v) <= At(s.index, w))
  {
    var n := |path| - 1;
    DoneTopExplored(g, s, frames, path, v);
    assert y in s.index && (y != v ==> y !in path);
    assert w in s.index;
    if w in s.stacked {
      assert LowOk(g, s, frames, path, n);
    }
  }

  lemma ComponentMutual<T(!new)>(g: Graph<T>, s: Search<T>, frames: seq<VisitFrame<T>>, path: seq<T>, placed: set<T>, v: T, y: T)
    requires Searching(g, s, frames, path, placed) && TopDone(frames, path)
    requires forall x, w {:trigger Edge(g, x, w)} :: x in placed && Edge(g, x, w) ==> w in placed
    requires v == path[|path| - 1] && At(s.low, v) == At(s.index, v)
    requires y in s.stacked && At(s.index, v) <= At(s.index, y)
    ensures Reaches(g, v, y) && Reaches(g, y, v)
  {
    assert v in s.stacked;
    ReachesSelf(g, y);
    assert Anchored(g, s.index, path, y);
    var k :| 0 <= k < |path| && At(s.index, path[k]) <= At(s.index, y) && Reaches(g, y, path[k]);
    var closed := placed + set x | x in s.stacked && At(s.index, v) <= At(s.index, x);
    forall x, w | x in closed && Edge(g, x, w)
      ensures w in closed
    {
      if x !in placed { ComponentClosed(g, s, frames, path, placed, v, x, w); }
    }
    ClosedUnderReaches(g, closed, y, path[k]);
    assert path[k] in s.stacked;
    assert Reaches(g, v, y);
  }

  lemma ComponentCollected<T(!new)>(g: Graph<T>, s: Search<T>, frames: seq<VisitFrame<T>>, path: seq<T>, v: T,
                                    components: seq<seq<T>>, of: map<T, nat>, members: seq<T>, of': map<T, nat>)
    requires Searching(g, s, frames, path, of.Keys) && TopDone(frames, path) && Collected(g, components, of)
    requires v == path[|path| - 1] && At(s.low, v) == At(s.index, v)
    requires forall y :: y in members <==> y in s.stacked && At(s.index, v) <= At(s.index, y)
    requires Distinct(members) && members != []
    requires of'.Keys == of.Keys + set y | y in members
    requires forall y :: y in of' ==> of'[y] == if y in members then |components| else of[y]
    ensures Collected(g, components + [members], of')
  {
    var components' := components + [members];
    forall y, w | y in of' && Edge(g, y, w)
      ensures w in of' && of'[w] <= of'[y]
    {
      if y in members { ComponentClosed(g, s, frames, path, of.Keys, v, y, w); }
      else { assert y in of; }
    }
    forall x, y | x in of' && y in of' && of'[x] == of'[y]
      ensures Reaches(g, x, y)
    {
      if x in members {
        assert y in members;
        ComponentMutual(g, s, frames, path, of.Keys, v, x);
        ComponentMutual(g, s, frames, path, of.Keys, v, y);
        ReachesTransitive(g, x, v, y);
      } else {
        assert x in of && y in of && of[x] == of[y];
      }
    }
    forall c, y | 0 <= c < |components'| && y in components'[c]
      ensures y in of' && of'[y] == c
    {
      if c < |components| { assert y in of && y !in members; }
    }
  }

  lemma PoppedNumbered<T(!new)>(g: Graph<T>, s: Search<T>, placed: set<T>, p: nat)
    requires Numbered(g, s, placed) && p < |s.stack|
    ensures Numbered(g, Popped(s, p), placed + set x | x in s.stack[p..])
  {
    var s' := Popped(s, p);
    forall x ensures x in s.stack[p..] <==> x in s.stacked && At(s.index, s.stack[p]) <= At(s.index, x) {
      Suffix(g, s, placed, p, x);
    }
    forall i | 0 <= i < p ensures s.stack[i] in s'.stacked {
      assert s.stack[i] in s.stacked;
    }
    forall x ensures x in s'.stack <==> x in s'.stacked {
      if x in s'.stacked {
        assert x in s.stack;
        var i :| 0 <= i < |s.stack| && s.stack[i] == x;
        assert At(s.index, x) < At(s.index, s.stack[p]);
        assert i < p && s'.stack[i] == x;
      }
    }
  }

  lemma PoppedLows<T(!new)>(g: Graph<T>, s: Search<T>, s': Search<T>, frames: seq<VisitFrame<T>>, path: seq<T>, placed: set<T>, v: T)
    requires Numbered(g, s, placed) && OnPath(s, path) && Lows(g, s, frames, path)
    requires |frames| == |path| > 0 && v == path[|path| - 1]
    requires s' == s.(stack := s'.stack, stacked := s'.stacked)
    requires forall x :: x in s'.stacked <==> x in s.stacked && At(s.index, x) < At(s.index, v)
    ensures Lows(g, s', frames[..|frames| - 1], path[..|path| - 1])
  {
    var n := |path| - 1;
    forall k: nat | k < n
      ensures LowOk(g, s', frames[..n], path[..n], k)
    {
      assert LowOk(g, s, frames, path, k);
      var x := path[k];
      var w :| w in s.stacked && At(s.index, w) == At(s.low, x) && Reaches(g, x, w);
      assert At(s.index, x) < At(s.index, v);
      assert w in s'.stacked && At(s'.index, w) == At(s'.low, x);
      if k + 1 < n { assert Limit(s', path[..n], k) == Limit(s, path, k); }
    }
  }

  lemma PoppedAnchored<T(!new)>(g: Graph<T>, s: Search<T>, s': Search<T>, path: seq<T>, v: T)
    requires OnPath(s, path) && AllAnchored(g, s, path) && path != [] && v == path[|path| - 1]
    requires s' == s.(stack := s'.stack, stacked := s'.stacked)
    requires forall x :: x in s'.stacked <==> x in s.stacked && At(s.index, x) < At(s.index, v)
    ensures OnPath(s', path[..|path| - 1]) && AllAnchored(g, s', path[..|path| - 1])
  {
    var n := |path| - 1;
    forall y | y in s'.stacked
      ensures Anchored(g, s.index, path[..n], y)
    {
      assert Anchored(g, s.index, path, y);
      var k :| 0 <= k < |path| && At(s.index, path[k]) <= At(s.index, y) && Reaches(g, y, path[k]);
      assert path[..n][k] == path[k];
    }
  }

  /** A finished node that reaches nothing below itself leaves the stack with everything above it. */
  lemma CloseComponent<T(!new)>(g: Graph<T>, s: Search<T>, frames: seq<VisitFrame<T>>, path: seq<T>, placed: set<T>, v: T, p: nat)
    requires Searching(g, s, frames, path, placed) && TopDone(frames, path)
    requires v == path[|path| - 1] && At(s.low, v) == At(s.index, v) && p < |s.stack| && s.stack[p] == v
    ensures forall y :: y in s.stack[p..] <==> y in s.stacked && At(s.index, v) <= At(s.index, y)
    ensures Searching(g, Popped(s, p), frames[..|frames| - 1], path[..|path| - 1], placed + set x | x in s.stack[p..])
  {
    var s' := Popped(s, p);
    forall x ensures x in s.stack[p..] <==> x in s.stacked && At(s.index, v) <= At(s.index, x) {
      Suffix(g, s, placed, p, x);
    }
    PoppedNumbered(g, s, placed, p);
    DoneTopExplored(g, s, frames, path, v);
    CloseFramed(g, s, frames, path);
    PoppedAnchored(g, s, s', path, v);
    PoppedLows(g, s, s', frames, path, placed, v);
  }

  /** Edges the open frames have still to look at, plus the frames to close. */
  ghost function Remaining<T>(frames: seq<VisitFrame<T>>): nat {
    if frames == [] then 0
    else
      var top := frames[|frames| - 1];
      Remaining(frames[..|frames| - 1]) + 1 + if top.nextLater < |top.laterValues| then |top.laterValues| - top.nextLater else 0
  }

  lemma SteppedRemaining<T>(frames: seq<VisitFrame<T>>)
    requires frames != []
    requires var top := frames[|frames| - 1]; top.nextLater < |top.laterValues|
    ensures Remaining(Stepped(frames)) < Remaining(frames)
  {
    assert Stepped(frames)[..|frames| - 1] == frames[..|frames| - 1];
  }

  lemma SearchStarts<T(!new)>(g: Graph<T>)
    ensures Searching(g, Search(map[], map[], [], {}, 0), [], [], {}) && Collected(g, [], map[])
  {
  }

  lemma SearchFacts<T(!new)>(g: Graph<T>, s: Search<T>, frames: seq<VisitFrame<T>>, path: seq<T>, placed: set<T>)
    requires Searching(g, s, frames, path, placed)
    ensures |frames| == |path| && s.index.Keys == s.low.Keys && placed <= s.index.Keys <= g.after.Keys
  {
  }

  lemma NodeFacts<T(!new)>(g: Graph<T>, v: T)
    requires WellFormed(g)
    ensures v in g.nodes <==> v in g.after
    ensures v in g.after ==> forall w :: w in g.after[v] ==> w in g.after
  {
  }

  lemma FrameValues<T(!new)>(g: Graph<T>, s: Search<T>, frames: seq<VisitFrame<T>>, path: seq<T>, placed: set<T>, k: nat)
    requires Searching(g, s, frames, path, placed) && k < |frames|
    ensures k < |path| && FrameOk(g, s.index, frames[k], path[k]) && path[k] in s.stacked
    ensures path[k] in s.index && path[k] in s.low && path[k] in g.after
  {
  }

  /** When a component is complete its parent frame already has a smaller `low`. */
  lemma ParentLow<T(!new)>(g: Graph<T>, s: Search<T>, frames: seq<VisitFrame<T>>, path: seq<T>, placed: set<T>)
    requires Searching(g, s, frames, path, placed) && frames != []
    ensures |frames| == |path| && At(s.low, path[|path| - 1]) <= At(s.index, path[|path| - 1])
    ensures |frames| > 1 ==> At(s.low, path[|path| - 2]) < At(s.index, path[|path| - 1])
  {
    assert LowOk(g, s, frames, path, |path| - 1);
    if |path| > 1 {
      assert LowOk(g, s, frames, path, |path| - 2);
      assert At(s.index, path[|path| - 2]) < At(s.index, path[|path| - 1]);
    }
  }

  lemma NotInRest<T>(s: seq<T>, n: nat)
    requires Distinct(s) && n < |s|
    ensures s[n] !in s[n + 1..]
  {
    assert forall k :: n < k < |s| ==> s[k] != s[n];
  }

  /** Pops the stack down to and including `value`. */
  method PopMembers<T(==,!new)>(full: seq<T>, all: set<T>, value: T)
    returns (stack: seq<T>, stacked: set<T>, component: seq<T>)
    requires value in full && Distinct(full)
    ensures |stack| < |full| && stack == full[..|stack|] && full[|stack|] == value
    ensures stacked == all - set x | x in full[|stack|..]
    ensures Distinct(component) && forall x :: x in component <==> x in full[|stack|..]
  {
    stack, stacked, component := full, all, [];
    assert forall x :: x !in full[|full|..];
    while |stack| > 0
      invariant |stack| <= |full| && stack == full[..|stack|] && value in stack
      invariant stacked == all - set x | x in full[|stack|..]
      invariant Distinct(component) && forall x :: x in component <==> x in full[|stack|..]
    {
      var member := stack[|stack| - 1];
      var n := |stack| - 1;
      assert full[n..] == [member] + full[n + 1..];
      NotInRest(full, n);
      stack := stack[..n];
      stacked := stacked - {member};
      component := component + [member];
      if member == value { return; }
      assert full[..n + 1] == full[..n] + [member];
    }
  }

  lemma OfGrows<T>(of: map<T, nat>, component: seq<T>, rest: set<T>, n: nat)
    requires forall x :: x in component <==> x in rest
    ensures (of + map y | y in component :: n).Keys == of.Keys + rest
    ensures var of' := of + map y | y in component :: n;
      forall y :: y in of' ==> of'[y] == if y in component then n else of[y]
  {
  }

  lemma JoinCollected<T(!new)>(g: Graph<T>, s: Search<T>, frames: seq<VisitFrame<T>>, path: seq<T>, v: T,
                               components: seq<seq<T>>, of: map<T, nat>, p: nat, component: seq<T>, cmp: (T, T) -> int)
    requires Searching(g, s, frames, path, of.Keys) && TopDone(frames, path) && Collected(g, components, of)
    requires v == path[|path| - 1] && At(s.low, v) == At(s.index, v) && p < |s.stack| && s.stack[p] == v
    requires Distinct(component) && forall x :: x in component <==> x in s.stack[p..]
    ensures Collected(g, components + [Sort(cmp, component)], of + map y | y in component :: |components|)
  {
    hide *;
    CloseComponent(g, s, frames, path, of.Keys, v, p);
    assert s.stack[p..][0] == v && v in component;
    SortKeepsDistinct(cmp, component);
    var members := Sort(cmp, component);
    OfGrows(of, component, set y | y in members, |components|);
    ComponentCollected(g, s, frames, path, v, components, of, members, of + map y | y in component :: |components|);
  }


  /** The component just popped, sorted, joins the finished ones. */
  lemma ComponentJoins<T(!new)>(g: Graph<T>, s: Search<T>, frames: seq<VisitFrame<T>>, path: seq<T>, v: T,
                                components: seq<seq<T>>, of: map<T, nat>, p: nat, component: seq<T>, cmp: (T, T) -> int)
    requires Searching(g, s, frames, path, of.Keys) && TopDone(frames, path) && Collected(g, components, of)
    requires v == path[|path| - 1] && At(s.low, v) == At(s.index, v) && p < |s.stack| && s.stack[p] == v
    requires Distinct(component) && forall x :: x in component <==> x in s.stack[p..]
    ensures Collected(g, components + [Sort(cmp, component)], of + map y | y in component :: |components|)
    ensures Searching(g, Popped(s, p), frames[..|frames| - 1], path[..|path| - 1],
                      (of + map y | y in component :: |components|).Keys)
  {
    hide *;
    JoinCollected(g, s, frames, path, v, components, of, p, component, cmp);
    CloseComponent(g, s, frames, path, of.Keys, v, p);
    OfGrows(of, component, set x | x in s.stack[p..], |components|);
  }

  /** One pass of the inner loop over an edge: open a frame on an unvisited node, or note a stacked one. */
  method LookAtNext<T(==,!new)>(g: Graph<T>, s: Search<T>, visits: seq<VisitFrame<T>>, ghost path: seq<T>, ghost placed: set<T>)
    returns (s': Search<T>, visits': seq<VisitFrame<T>>, ghost path': seq<T>)
    requires WellFormed(g) && Searching(g, s, visits, path, placed)
    requires visits != [] && var top := visits[|visits| - 1]; top.nextLater < |top.laterValues|
    ensures Searching(g, s', visits', path', placed) && s.index.Keys <= s'.index.Keys
    ensures s.index.Keys < s'.index.Keys || Remaining(visits') < Remaining(visits)
  {
    hide Searching;
    SearchFacts(g, s, visits, path, placed);
    FrameValues(g, s, visits, path, placed, |visits| - 1);
    var visit := visits[|visits| - 1];
    var later := visit.laterValues[visit.nextLater];
    NodeFacts(g, visit.value);
    SteppedRemaining(visits);
    s', visits', path' := s, Stepped(visits), path;
    if later !in s.index {
      StartLater(g, s, visits, path, placed, later);
      s' := Started(s, later);
      visits' := visits' + [VisitFrame(later, g.after[later], 0)];
      path' := path + [later];
    } else {
      LaterSeen(g, s, visits, path, placed, later);
      if later in s.stacked { s' := Lowered(s, visit.value, s.index[later]); }
    }
  }

  /** Takes the finished component off the stack and puts it out, sorted. */
  method TakeComponent<T(==,!new)>(g: Graph<T>, cmp: (T, T) -> int, s: Search<T>, components: seq<seq<T>>, value: T,
                                   ghost visits: seq<VisitFrame<T>>, ghost path: seq<T>, ghost of: map<T, nat>)
    returns (s': Search<T>, components': seq<seq<T>>, ghost of': map<T, nat>)
    requires TotalPreorder(cmp) && Searching(g, s, visits, path, of.Keys) && TopDone(visits, path)
    requires value == path[|path| - 1] && value in s.stacked && At(s.low, value) == At(s.index, value)
    requires Collected(g, components, of) && AllSorted(cmp, components)
    ensures Searching(g, s', visits[..|visits| - 1], path[..|path| - 1], of'.Keys) && s'.index == s.index
    ensures Collected(g, components', of') && AllSorted(cmp, components')
  {
    hide Searching, Collected, TotalPreorder, Sorted, WellFormed;
    StackFacts(g, s, visits, path, of.Keys, value);
    var stack, stacked, component := PopMembers(s.stack, s.stacked, value);
    ComponentJoins(g, s, visits, path, value, components, of, |stack|, component, cmp);
    SortSorts(cmp, component);
    s' := s.(stack := stack, stacked := stacked);
    components', of' := components + [Sort(cmp, component)], of + map y | y in component :: |components|;
  }

  /** A frame with no edges left closes: its node passes `low` on and, if it reaches nothing below itself,
      takes everything above it off the stack as a component. */
  method Finish<T(==,!new)>(g: Graph<T>, cmp: (T, T) -> int, s: Search<T>, visits: seq<VisitFrame<T>>, components: seq<seq<T>>,
                            ghost path: seq<T>, ghost of: map<T, nat>)
    returns (s': Search<T>, visits': seq<VisitFrame<T>>, components': seq<seq<T>>, ghost path': seq<T>, ghost of': map<T, nat>)
    requires TotalPreorder(cmp) && Searching(g, s, visits, path, of.Keys) && TopDone(visits, path)
    requires Collected(g, components, of) && AllSorted(cmp, components)
    ensures Searching(g, s', visits', path', of'.Keys) && s'.index == s.index && Remaining(visits') < Remaining(visits)
    ensures Collected(g, components', of') && AllSorted(cmp, components')
  {
    hide Searching, Collected, TotalPreorder, AllSorted;
    var visit := visits[|visits| - 1];
    FrameValues(g, s, visits, path, of.Keys, |visits| - 1);
    ParentLow(g, s, visits, path, of.Keys);
    visits', path' := visits[..|visits| - 1], path[..|path| - 1];
    s', components', of' := s, components, of;
    if |visits'| > 0 {
      FrameValues(g, s, visits, path, of.Keys, |visits| - 2);
      s' := Lowered(s, visits'[|visits'| - 1].value, s.low[visit.value]);
    }
    if s'.low[visit.value] == s'.index[visit.value] {
      assert s'.low == s.low;
      s', components', of' := TakeComponent(g, cmp, s, components, visit.value, visits, path, of);
    } else {
      CloseMember(g, s, visits, path, of.Keys, visit.value);
    }
  }

  ghost predicate AllSorted<T(!new)>(cmp: (T, T) -> int, components: seq<seq<T>>) {
    forall c :: 0 <= c < |components| ==> Sorted(cmp, components[c])
  }

  /** Tarjan's search over all nodes in order: `of` tells each node's component. */
  method FindComponents<T(==,!new)>(g: Graph<T>, cmp: (T, T) -> int) returns (components: seq<seq<T>>, ghost of: map<T, nat>)
    requires WellFormed(g) && TotalPreorder(cmp)
    ensures Collected(g, components, of) && of.Keys == g.after.Keys && AllSorted(cmp, components)
  {
    hide Searching, Collected, WellFormed, TotalPreorder;
    SearchStarts(g);
    var s: Search<T> := Search(map[], map[], [], {}, 0);
    components, of := [], map[];
    assert of.Keys == {};
    for n := 0 to |g.nodes|
      invariant Searching(g, s, [], [], of.Keys) && Collected(g, components, of) && AllSorted(cmp, components)
      invariant forall i :: 0 <= i < n ==> g.nodes[i] in s.index
    {
      var value := g.nodes[n];
      if value in s.index { continue; }
      NodeFacts(g, value);
      StartRoot(g, s, of.Keys, value);
      s := Started(s, value);
      var visits := [VisitFrame(value, g.after[value], 0)];
      ghost var path := [value];
      while |visits| > 0
        invariant Searching(g, s, visits, path, of.Keys) && Collected(g, components, of) && AllSorted(cmp, components)
        invariant forall i :: 0 <= i <= n ==> g.nodes[i] in s.index
        decreases g.after.Keys - s.index.Keys, Remaining(visits)
      {
        SearchFacts(g, s, visits, path, of.Keys);
        ghost var before := s.index.Keys;
        var visit := visits[|visits| - 1];
        if visit.nextLater < |visit.laterValues| {
          s, visits, path := LookAtNext(g, s, visits, path, of.Keys);
        } else {
          FrameValues(g, s, visits, path, of.Keys, |visits| - 1);
          s, visits, components, path, of := Finish(g, cmp, s, visits, components, path, of);
        }
        SearchFacts(g, s, visits, path, of.Keys);
        assert s.index.Keys == before || g.after.Keys - s.index.Keys < g.after.Keys - before;
      }
      SearchFacts(g, s, visits, path, of.Keys);
    }
    NothingStacked(g, s, of.Keys);
    SearchFacts(g, s, [], [], of.Keys);
    forall v | v in g.after
      ensures v in of
    {
      NodeFacts(g, v);
      var i :| 0 <= i < |g.nodes| && g.nodes[i] == v;
    }
  }

  lemma StackFacts<T(!new)>(g: Graph<T>, s: Search<T>, frames: seq<VisitFrame<T>>, path: seq<T>, placed: set<T>, v: T)
    requires Searching(g, s, frames, path, placed) && v in s.stacked
    ensures Distinct(s.stack) && v in s.stack
  {
    forall i, j | 0 <= i < j < |s.stack|
      ensures s.stack[i] != s.stack[j]
    {
      assert At(s.index, s.stack[i]) < At(s.index, s.stack[j]);
    }
  }

  lemma NothingStacked<T(!new)>(g: Graph<T>, s: Search<T>, placed: set<T>)
    requires Searching(g, s, [], [], placed)
    ensures s.stacked == {} && s.index.Keys == placed
  {
    forall y
      ensures y !in s.stacked
    {
      assert !Anchored(g, s.index, [], y);
    }
  }
}
