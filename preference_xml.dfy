// The stack discipline both PreferenceManager.parseXmlPreference versions use
// to turn a preference XML document into a forest of preferences.
//
// The parser is fed a stream of events whose attributes are already resolved
// into a value of type A. An "item" or "group" start tag pushes the current
// builder (the cursor) and opens a new one; an end tag closes the cursor into
// a preference, hands it to the builder below it (or to the top-level list)
// and records it in the id map. This module states that discipline as a fold
// over events; the two manager modules prove that their object-level loops
// follow it.

module PreferenceXml {
  import opened JavaBase

  /** Element names: "item", "group", and every other name. */
  datatype Element = ItemElement | GroupElement | OtherElement

  predicate IsPreferenceElement(e: Element)
  {
    e.ItemElement? || e.GroupElement?
  }

  datatype Event<A> =
    | StartTag(element: Element, attrs: A)
    | EndTag(element: Element)
    | OtherEvent      // text, comments, the document start
    | Malformed       // the parser raises XmlPullParserException or IOException

  /** A finished preference: the end tag's element, its attributes, its children. */
  datatype Tree<A> = Tree(element: Element, attrs: A, children: seq<Tree<A>>)

  /** An open builder: its attributes and the children added so far. */
  datatype Frame<A> = Frame(attrs: A, children: seq<Tree<A>>)

  /**
   * cursor: the open builder; pending: the builder queue, its head first;
   * roots: the top-level preference list; finished: every preference in
   * creation order (the order of puts into the id map); halted: the parser
   * raised an exception, which the manager's constructor swallows.
   */
  datatype BuildState<A> = BuildState(
    cursor: Option<Frame<A>>,
    pending: seq<Frame<A>>,
    roots: seq<Tree<A>>,
    finished: seq<Tree<A>>,
    halted: bool)

  function Initial<A>(): BuildState<A>
  {
    BuildState(None, [], [], [], false)
  }

  /** The cursor is null only when the builder queue is empty. */
  ghost predicate Consistent<A>(s: BuildState<A>)
  {
    s.cursor.None? ==> s.pending == []
  }

  function Step<A>(s: BuildState<A>, e: Event<A>): (s': BuildState<A>)
    ensures Consistent(s) ==> Consistent(s')
    ensures s.roots <= s'.roots && s.finished <= s'.finished
  {
    if s.halted then s
    else
      match e
      case Malformed => s.(halted := true)
      case OtherEvent => s
      case StartTag(el, attrs) =>
        if !IsPreferenceElement(el) then s
        else
          var pending := if s.cursor.Some? then [s.cursor.value] + s.pending else s.pending;
          s.(cursor := Some(Frame(attrs, [])), pending := pending)
      case EndTag(el) =>
        if !IsPreferenceElement(el) || s.cursor.None? then s
        else
          var node := Tree(el, s.cursor.value.attrs, s.cursor.value.children);
          if |s.pending| == 0 then
            s.(cursor := None, roots := s.roots + [node], finished := s.finished + [node])
          else
            var parent := s.pending[0];
            s.(cursor := Some(parent.(children := parent.children + [node])),
               pending := s.pending[1..],
               finished := s.finished + [node])
  }

  /** The state after feeding the events in order. */
  function Run<A>(s: BuildState<A>, events: seq<Event<A>>): BuildState<A>
  {
    if events == [] then s else Step(Run(s, events[..|events| - 1]), events[|events| - 1])
  }

  function Build<A>(events: seq<Event<A>>): BuildState<A>
  {
    Run(Initial(), events)
  }

  lemma {:induction false} RunAppend<A>(s: BuildState<A>, a: seq<Event<A>>, b: seq<Event<A>>)
    ensures Run(s, a + b) == Run(Run(s, a), b)
    decreases |b|
  {
    if b == [] {
      assert a + b == a;
    } else {
      assert (a + b)[..|a + b| - 1] == a + b[..|b| - 1];
      RunAppend(s, a, b[..|b| - 1]);
    }
  }

  /**
   * Whatever the event stream, the cursor is null only with an empty queue,
   * and the top-level list and the created preferences only grow.
   */
  lemma {:induction false} RunMonotone<A>(s: BuildState<A>, events: seq<Event<A>>)
    requires Consistent(s)
    ensures Consistent(Run(s, events))
    ensures s.roots <= Run(s, events).roots
    ensures s.finished <= Run(s, events).finished
    decreases |events|
  {
    if events != [] {
      RunMonotone(s, events[..|events| - 1]);
    }
  }

  /** Once the parser has raised, the remaining events change nothing. */
  lemma {:induction false} HaltedStays<A>(s: BuildState<A>, events: seq<Event<A>>)
    requires s.halted
    ensures Run(s, events) == s
    decreases |events|
  {
    if events != [] {
      HaltedStays(s, events[..|events| - 1]);
    }
  }

  lemma RunSnoc<A>(events: seq<Event<A>>, n: nat)
    requires n < |events|
    ensures Run(Initial(), events[..n + 1]) == Step(Run(Initial(), events[..n]), events[n])
  {
    assert events[..n + 1][..n] == events[..n];
  }

  /** After a parser error the rest of the document is ignored. */
  lemma MalformedEnds<A>(events: seq<Event<A>>, n: nat, s: BuildState<A>)
    requires n < |events| && events[n].Malformed? && s == Run(Initial(), events[..n]) && !s.halted
    ensures Build(events).roots == s.roots && Build(events).finished == s.finished
  {
    var s' := Step(s, events[n]);
    assert events[..n + 1][..n] == events[..n];
    assert Run(Initial(), events[..n + 1]) == s';
    RunAppend(Initial(), events[..n + 1], events[n + 1..]);
    assert events[..n + 1] + events[n + 1..] == events;
    HaltedStays(s', events[n + 1..]);
  }

  // ---------------------------------------------------------------------
  // Well-nested documents

  ghost predicate WellFormedTree<A>(t: Tree<A>)
  {
    IsPreferenceElement(t.element) &&
    forall c :: c in t.children ==> WellFormedTree(c)
  }

  ghost predicate WellFormedForest<A>(ts: seq<Tree<A>>)
  {
    forall t :: t in ts ==> WellFormedTree(t)
  }

  /** The events of a well-nested document holding this preference. */
  function TreeEvents<A>(t: Tree<A>): seq<Event<A>>
  {
    [StartTag(t.element, t.attrs)] + ForestEvents(t.children) + [EndTag(t.element)]
  }

  function ForestEvents<A>(ts: seq<Tree<A>>): seq<Event<A>>
  {
    if ts == [] then [] else ForestEvents(ts[..|ts| - 1]) + TreeEvents(ts[|ts| - 1])
  }

  /** Children before their parent, siblings in document order. */
  function TreePostOrder<A>(t: Tree<A>): seq<Tree<A>>
  {
    ForestPostOrder(t.children) + [t]
  }

  function ForestPostOrder<A>(ts: seq<Tree<A>>): seq<Tree<A>>
  {
    if ts == [] then [] else ForestPostOrder(ts[..|ts| - 1]) + TreePostOrder(ts[|ts| - 1])
  }

  /** The state after a whole preference has been parsed into s. */
  function Attach<A>(s: BuildState<A>, t: Tree<A>): BuildState<A>
  {
    if s.cursor.None? then
      s.(roots := s.roots + [t], finished := s.finished + TreePostOrder(t))
    else
      s.(cursor := Some(s.cursor.value.(children := s.cursor.value.children + [t])),
         finished := s.finished + TreePostOrder(t))
  }

  function AttachForest<A>(s: BuildState<A>, ts: seq<Tree<A>>): BuildState<A>
  {
    if ts == [] then s else Attach(AttachForest(s, ts[..|ts| - 1]), ts[|ts| - 1])
  }

  lemma {:induction false} AttachForestShape<A>(s: BuildState<A>, ts: seq<Tree<A>>)
    ensures AttachForest(s, ts).halted == s.halted
    ensures AttachForest(s, ts).pending == s.pending
    ensures AttachForest(s, ts).cursor.None? == s.cursor.None?
    ensures Consistent(s) ==> Consistent(AttachForest(s, ts))
    decreases |ts|
  {
    if ts != [] {
      AttachForestShape(s, ts[..|ts| - 1]);
    }
  }

  /** Feeding a start tag, a body and an end tag. */
  lemma RunBracket<A>(s: BuildState<A>, start: Event<A>, body: seq<Event<A>>, fin: Event<A>)
    ensures Run(s, [start] + body + [fin]) == Step(Run(Step(s, start), body), fin)
  {
    assert [start][..0] == [];
    RunAppend(s, [start], body);
    var all := [start] + body + [fin];
    assert all[..|all| - 1] == [start] + body;
  }

  /** Closing a preference once all its children are attached to it. */
  lemma CloseTree<A>(s: BuildState<A>, t: Tree<A>)
    requires !s.halted && Consistent(s) && IsPreferenceElement(t.element)
    ensures var s1 := Step(s, StartTag(t.element, t.attrs));
      Step(s1.(cursor := Some(Frame(t.attrs, t.children)), finished := s.finished + ForestPostOrder(t.children)),
           EndTag(t.element)) == Attach(s, t)
  {
    assert s.finished + ForestPostOrder(t.children) + [t] == s.finished + TreePostOrder(t);
  }

  /** Parsing a preference's events opens, fills and closes one builder. */
  lemma {:induction false} TreeRun<A>(s: BuildState<A>, t: Tree<A>)
    requires !s.halted && Consistent(s) && WellFormedTree(t)
    ensures Run(s, TreeEvents(t)) == Attach(s, t)
    decreases t, 1
  {
    var start: Event<A> := StartTag(t.element, t.attrs);
    var fin: Event<A> := EndTag(t.element);
    var s1 := Step(s, start);
    RunBracket(s, start, ForestEvents(t.children), fin);
    ForestRun(s1, t.children);
    ForestChildren(s1, t.children);
    assert [] + t.children == t.children;
    CloseTree(s, t);
  }

  /** Parsing a run of sibling preferences attaches each in turn. */
  lemma {:induction false} ForestRun<A>(s: BuildState<A>, ts: seq<Tree<A>>)
    requires !s.halted && Consistent(s) && WellFormedForest(ts)
    ensures Run(s, ForestEvents(ts)) == AttachForest(s, ts)
    decreases ts, 0
  {
    if ts != [] {
      var init := ts[..|ts| - 1];
      var last := ts[|ts| - 1];
      assert WellFormedForest(init) by {
        forall t | t in init ensures WellFormedTree(t) {
          assert t in ts;
        }
      }
      ForestRun(s, init);
      AttachForestShape(s, init);
      TreeRun(AttachForest(s, init), last);
      RunAppend(s, ForestEvents(init), TreeEvents(last));
    }
  }

  /** Inside an open builder, siblings become its children in order. */
  lemma {:induction false} ForestChildren<A>(s: BuildState<A>, ts: seq<Tree<A>>)
    requires s.cursor.Some?
    ensures AttachForest(s, ts) ==
      s.(cursor := Some(s.cursor.value.(children := s.cursor.value.children + ts)),
         finished := s.finished + ForestPostOrder(ts))
    decreases |ts|
  {
    if ts == [] {
      assert s.cursor.value.children + ts == s.cursor.value.children;
      assert s.finished + ForestPostOrder(ts) == s.finished;
    } else {
      ForestChildren(s, ts[..|ts| - 1]);
      assert s.cursor.value.children + ts[..|ts| - 1] + [ts[|ts| - 1]] == s.cursor.value.children + ts;
      assert s.finished + ForestPostOrder(ts[..|ts| - 1]) + TreePostOrder(ts[|ts| - 1])
        == s.finished + ForestPostOrder(ts);
    }
  }

  /** At top level, siblings become the preference list in order. */
  lemma {:induction false} ForestRoots<A>(s: BuildState<A>, ts: seq<Tree<A>>)
    requires s.cursor.None?
    ensures AttachForest(s, ts) ==
      s.(roots := s.roots + ts, finished := s.finished + ForestPostOrder(ts))
    decreases |ts|
  {
    if ts == [] {
      assert s.roots + ts == s.roots;
      assert s.finished + ForestPostOrder(ts) == s.finished;
    } else {
      ForestRoots(s, ts[..|ts| - 1]);
      assert s.roots + ts[..|ts| - 1] + [ts[|ts| - 1]] == s.roots + ts;
      assert s.finished + ForestPostOrder(ts[..|ts| - 1]) + TreePostOrder(ts[|ts| - 1])
        == s.finished + ForestPostOrder(ts);
    }
  }

  /**
   * Round trip: the builder loop rebuilds exactly the forest a well-nested
   * document describes, and creates its preferences children-first.
   */
  lemma BuildRoundTrip<A>(ts: seq<Tree<A>>)
    requires WellFormedForest(ts)
    ensures Build(ForestEvents(ts)) == BuildState(None, [], ts, ForestPostOrder(ts), false)
  {
    ForestRun(Initial(), ts);
    ForestRoots(Initial(), ts);
  }

  // ---------------------------------------------------------------------
  // The id map: a LinkedHashMap keyed by preference id, filled in creation
  // order, so a later preference with the same id replaces an earlier one.

  function IdIndex<A>(nodes: seq<Tree<A>>, id: A -> int): (m: LinkedMap<int, Tree<A>>)
    ensures m.Valid()
  {
    if nodes == [] then EmptyLinkedMap()
    else
      var last := nodes[|nodes| - 1];
      IdIndex(nodes[..|nodes| - 1], id).Put(id(last.attrs), last)
  }

  /** Creating one more preference files it under its id. */
  lemma IdIndexSnoc<A>(nodes: seq<Tree<A>>, id: A -> int, node: Tree<A>)
    ensures IdIndex(nodes + [node], id) == IdIndex(nodes, id).Put(id(node.attrs), node)
  {
    assert (nodes + [node])[..|nodes|] == nodes;
  }

  /** j is the last created preference whose id is k. */
  ghost predicate IsLastWithId<A>(nodes: seq<Tree<A>>, id: A -> int, j: int, k: int)
  {
    0 <= j < |nodes| && id(nodes[j].attrs) == k &&
    forall j' :: j < j' < |nodes| ==> id(nodes[j'].attrs) != k
  }

  /** Every created preference's id is a key of the map. */
  lemma {:induction false} IdIndexCovers<A>(nodes: seq<Tree<A>>, id: A -> int)
    ensures forall j :: 0 <= j < |nodes| ==> id(nodes[j].attrs) in IdIndex(nodes, id).entries
    decreases |nodes|
  {
    if nodes != [] {
      IdIndexCovers(nodes[..|nodes| - 1], id);
    }
  }

  /** The last preference with an id stays last when the next one has another id. */
  lemma LastWithIdKept<A>(nodes: seq<Tree<A>>, id: A -> int, j: int, k: int)
    requires |nodes| > 0 && IsLastWithId(nodes[..|nodes| - 1], id, j, k)
    requires id(nodes[|nodes| - 1].attrs) != k
    ensures IsLastWithId(nodes, id, j, k)
  {
  }

  /** Each key maps to the last created preference carrying that id. */
  lemma {:induction false} IdIndexLastWins<A>(nodes: seq<Tree<A>>, id: A -> int)
    ensures forall k :: k in IdIndex(nodes, id).entries ==>
      exists j :: IsLastWithId(nodes, id, j, k) && nodes[j] == IdIndex(nodes, id).entries[k]
    decreases |nodes|
  {
    if nodes != [] {
      var n := |nodes| - 1;
      var init := nodes[..n];
      IdIndexLastWins(init, id);
      var m0 := IdIndex(init, id);
      var m := IdIndex(nodes, id);
      assert m == m0.Put(id(nodes[n].attrs), nodes[n]);
      forall k | k in m.entries
        ensures exists j :: IsLastWithId(nodes, id, j, k) && nodes[j] == m.entries[k]
      {
        if k == id(nodes[n].attrs) {
          assert IsLastWithId(nodes, id, n, k);
        } else {
          assert k in m0.entries && m.entries[k] == m0.entries[k];
          var j :| IsLastWithId(init, id, j, k) && init[j] == m0.entries[k];
          LastWithIdKept(nodes, id, j, k);
          assert init[j] == nodes[j];
        }
      }
    }
  }
}
