/** The numbering of accessibility elements: the handle stored for `e{i}` against the node that carries `e{i}`. */
module AccessibilityNumbering {
  import opened Wrappers
  import opened Accessibility

  // ---------- preorders ----------

  function Preorder(raw: RawNode): seq<RawNode>
    decreases raw
  {
    [raw] + PreorderAll(raw.children)
  }

  function PreorderAll(raws: seq<RawNode>): seq<RawNode>
    decreases raws
  {
    if raws == [] then [] else PreorderAll(raws[..|raws| - 1]) + Preorder(raws[|raws| - 1])
  }

  function Nodes(node: Node): seq<Node>
    decreases node
  {
    [node] + NodesAll(node.children)
  }

  function NodesAll(nodes: seq<Node>): seq<Node>
    decreases nodes
  {
    if nodes == [] then [] else NodesAll(nodes[..|nodes| - 1]) + Nodes(nodes[|nodes| - 1])
  }

  function Keys(raws: seq<RawNode>): seq<Key> { seq(|raws|, i requires 0 <= i < |raws| => raws[i].key) }

  lemma KeysAppend(a: seq<RawNode>, b: seq<RawNode>)
    ensures Keys(a + b) == Keys(a) + Keys(b)
  {
  }

  // ---------- what a read logs ----------

  predicate Readable(w: World, key: Key) { w.elements(key).fault.NoFault? }

  /** The keys whose elements were read to the end. */
  function Good(w: World, log: seq<Key>): seq<Key> {
    if log == [] then []
    else Good(w, log[..|log| - 1]) + if Readable(w, log[|log| - 1]) then [log[|log| - 1]] else []
  }

  function BindingOf(w: World, key: Key): Binding { Binding(w.elements(key).actions, w.elements(key).settable) }

  /** The bindings a log of visits leaves behind: none for an element that failed early. */
  function Bound(w: World, log: seq<Key>): seq<Binding> {
    if log == [] then []
    else
      var last := log[|log| - 1];
      Bound(w, log[..|log| - 1]) + if w.elements(last).fault.Early? then [] else [BindingOf(w, last)]
  }

  lemma {:induction false} GoodAppend(w: World, a: seq<Key>, b: seq<Key>)
    ensures Good(w, a + b) == Good(w, a) + Good(w, b) && Bound(w, a + b) == Bound(w, a) + Bound(w, b)
  {
    if b == [] {
      assert a + b == a;
    } else {
      var n := |b| - 1;
      GoodAppend(w, a, b[..n]);
      assert (a + b)[..|a + b| - 1] == a + b[..n];
    }
  }

  ghost predicate Distinct(log: seq<Key>) { forall i, j | 0 <= i < j < |log| :: log[i] != log[j] }

  /** What visiting the elements of `log`, all of them new, does to the read state. */
  ghost predicate Advances(w: World, before: ReadState, after: ReadState, log: seq<Key>) {
    && Distinct(log) && (forall k | k in log :: k !in before.visited)
    && after.handles == before.handles + log
    && after.bindings == before.bindings + Bound(w, log)
    && (forall k :: k in after.visited <==> k in before.visited || k in log)
    && after.nodes == before.nodes + |log| <= MAX_NODES
  }

  lemma AdvancesTwice(w: World, a: ReadState, b: ReadState, c: ReadState, l: seq<Key>, m: seq<Key>)
    requires Advances(w, a, b, l) && Advances(w, b, c, m)
    ensures Advances(w, a, c, l + m)
  {
    GoodAppend(w, l, m);
    hide Bound, Good;
    var log := l + m;
    forall i, j | 0 <= i < j < |log| ensures log[i] != log[j] {
      if i < |l| <= j {
        assert log[i] in l && log[j] in m;
      }
    }
    assert c.handles == a.handles + log;
    assert c.bindings == a.bindings + (Bound(w, l) + Bound(w, m));
  }

  /** A raw tree within the bounds of the traversal, made of what the world shows. */
  ghost predicate Shaped(w: World, raw: RawNode, depth: nat)
    decreases raw
  {
    && depth <= MAX_DEPTH && |raw.children| <= MAX_CHILDREN
    && Readable(w, raw.key) && raw == RawOf(raw.key, w.elements(raw.key), raw.children, raw.truncated)
    && forall i | 0 <= i < |raw.children| :: Shaped(w, raw.children[i], depth + 1)
  }

  lemma WholeShaped(w: World, raw: RawNode, depth: nat)
    requires Readable(w, raw.key) && depth <= MAX_DEPTH && |raw.children| <= MAX_CHILDREN
    requires raw == RawOf(raw.key, w.elements(raw.key), raw.children, raw.truncated)
    requires forall i | 0 <= i < |raw.children| :: Shaped(w, raw.children[i], depth + 1)
    ensures Shaped(w, raw, depth)
  {
  }

  /** The state once an element that is not passed over was logged, with its bindings unless it failed early. */
  function Entered(w: World, key: Key, s: ReadState): ReadState {
    var logged := Logged(s.(visits := s.visits + 1), key);
    if w.elements(key).fault.Early? then logged else logged.(bindings := logged.bindings + [BindingOf(w, key)])
  }

  lemma EnteredAdvances(w: World, key: Key, s: ReadState)
    requires key !in s.visited && s.nodes < MAX_NODES
    ensures Advances(w, s, Entered(w, key, s), [key])
    ensures Good(w, [key]) == if Readable(w, key) then [key] else []
  {
    assert [key][..0] == [];
    assert Bound(w, []) == [] && Good(w, []) == [];
  }

  lemma WholeElement(
      w: World, key: Key, depth: nat, s: ReadState, after: ReadState, children: seq<RawNode>, truncated: bool,
      more: seq<Key>)
    requires Readable(w, key) && depth <= MAX_DEPTH && |children| <= MAX_CHILDREN
    requires key !in s.visited && s.nodes < MAX_NODES
    requires Advances(w, Entered(w, key, s), after, more) && Keys(PreorderAll(children)) == Good(w, more)
    requires forall i | 0 <= i < |children| :: Shaped(w, children[i], depth + 1)
    ensures var raw := RawOf(key, w.elements(key), children, truncated);
      && Advances(w, s, after, [key] + more)
      && Keys(Preorder(raw)) == Good(w, [key] + more) && Shaped(w, raw, depth)
  {
    var raw := RawOf(key, w.elements(key), children, truncated);
    EnteredAdvances(w, key, s);
    GoodAppend(w, [key], more);
    KeysAppend([raw], PreorderAll(children));
    assert Keys([raw]) == [key];
    assert Keys(Preorder(raw)) == Good(w, [key] + more);
    hide Good, Bound, Preorder, PreorderAll, Keys, Shaped, Readable;
    AdvancesTwice(w, s, Entered(w, key, s), after, [key], more);
    hide Advances;
    WholeShaped(w, raw, depth);
  }

  lemma {:induction false} ReadLogs(w: World, key: Key, depth: nat, s: ReadState) returns (log: seq<Key>)
    requires s.nodes <= MAX_NODES
    ensures var (after, outcome) := ReadRaw(w, key, depth, s);
      && Advances(w, s, after, log)
      && (outcome.Read? ==> Keys(Preorder(outcome.raw)) == Good(w, log) && Shaped(w, outcome.raw, depth))
      && (!outcome.Read? ==> Good(w, log) == [])
    decreases Room(depth), 0
  {
    log := [];
    if !Skips(w, key, depth, s) {
      var e := w.elements(key);
      var entered := Entered(w, key, s);
      EnteredAdvances(w, key, s);
      log := [key];
      if e.fault.NoFault? {
        var more := ReadChildrenLog(w, Take(e.children, MAX_CHILDREN), depth + 1, entered);
        hide ReadChildren, Advances;
        var (after, children, truncated) := ReadChildren(w, Take(e.children, MAX_CHILDREN), depth + 1, entered);
        assert ReadRaw(w, key, depth, s) == (after, Read(RawOf(key, e, children, truncated)));
        hide ReadRaw;
        WholeElement(w, key, depth, s, after, children, truncated, more);
        log := [key] + more;
      }
    } else {
      assert Good(w, []) == [] && Bound(w, []) == [];
    }
  }

  lemma {:induction false} ReadChildrenLog(w: World, keys: seq<Key>, depth: nat, s: ReadState) returns (log: seq<Key>)
    requires s.nodes <= MAX_NODES
    ensures var (after, children, _) := ReadChildren(w, keys, depth, s);
      && Advances(w, s, after, log) && |children| <= |keys|
      && Keys(PreorderAll(children)) == Good(w, log)
      && forall i | 0 <= i < |children| :: Shaped(w, children[i], depth)
    decreases Room(depth), |keys|
  {
    if keys == [] {
      log := [];
      assert Good(w, []) == [] && Bound(w, []) == [];
    } else {
      var n := |keys| - 1;
      var first := ReadChildrenLog(w, keys[..n], depth, s);
      var (before, children, truncated) := ReadChildren(w, keys[..n], depth, s);
      log := first;
      if w.elements(keys[n]).configurable {
        var more := ReadLogs(w, keys[n], depth, before);
        var (after, outcome) := ReadRaw(w, keys[n], depth, before);
        hide ReadRaw, Shaped;
        AdvancesTwice(w, s, before, after, first, more);
        GoodAppend(w, first, more);
        log := first + more;
        if outcome.Read? {
          assert (children + [outcome.raw])[..|children|] == children;
          KeysAppend(PreorderAll(children), Preorder(outcome.raw));
        }
        hide Advances, Good, Bound, Preorder;
      }
    }
  }

  // ---------- what normalising numbers ----------

  /** A node shows everything its raw node holds, in the form the normaliser gives it. */
  predicate Shows(n: Node, r: RawNode, generation: nat) {
    n == NodeOf(r, n.id, generation, n.children, n.truncated) && n.truncated == r.truncated
  }

  ghost predicate Numbered(nodes: seq<Node>, raws: seq<RawNode>, first: nat, generation: nat) {
    && |nodes| == |raws|
    && forall i | 0 <= i < |raws| :: nodes[i].id == first + i && Shows(nodes[i], raws[i], generation)
  }

  lemma NumberedTwice(a: seq<Node>, r: seq<RawNode>, b: seq<Node>, t: seq<RawNode>, first: nat, generation: nat)
    requires Numbered(a, r, first, generation) && Numbered(b, t, first + |a|, generation)
    ensures Numbered(a + b, r + t, first, generation)
  {
    hide Shows;
  }

  /** The raw nodes fit: new keys, no repeats, and room to number them all. */
  ghost predicate Fits(raws: seq<RawNode>, s: NumberState) {
    && Distinct(Keys(raws)) && s.nodes + |raws| <= MAX_NODES
    && forall k | k in Keys(raws) :: k !in s.visited
  }

  ghost predicate Counted(raws: seq<RawNode>, s: NumberState, after: NumberState) {
    && after.nodes == s.nodes + |raws| && after.nextId == s.nextId + |raws|
    && forall k :: k in after.visited <==> k in s.visited || k in Keys(raws)
  }

  lemma KeysLength(a: seq<RawNode>)
    ensures |Keys(a)| == |a|
  {
  }

  lemma FitsSplit(a: seq<RawNode>, b: seq<RawNode>, s: NumberState)
    requires Fits(a + b, s)
    ensures Fits(a, s)
    ensures forall after | Counted(a, s, after) :: Fits(b, after)
  {
    KeysAppend(a, b);
    var ka, kb := Keys(a), Keys(b);
    assert forall i | 0 <= i < |ka| :: (ka + kb)[i] == ka[i];
    assert forall i | 0 <= i < |kb| :: (ka + kb)[|ka| + i] == kb[i];
    hide Keys;
    assert |ka| == |a| && |kb| == |b| by { KeysLength(a); KeysLength(b); }
    forall i, j | 0 <= i < |ka| && 0 <= j < |kb| ensures ka[i] != kb[j] {
      assert (ka + kb)[i] == ka[i] && (ka + kb)[|ka| + j] == kb[j];
    }
    assert forall k | k in kb :: k !in ka;
  }

  lemma CountedTwice(a: seq<RawNode>, b: seq<RawNode>, s: NumberState, mid: NumberState, after: NumberState)
    requires Counted(a, s, mid) && Counted(b, mid, after)
    ensures Counted(a + b, s, after)
  {
    KeysAppend(a, b);
    hide Keys;
  }

  function Entering(raw: RawNode, s: NumberState): NumberState {
    NumberState(s.nodes + 1, s.nextId + 1, s.visited + {raw.key})
  }

  lemma RootFits(raw: RawNode, s: NumberState)
    requires Fits(Preorder(raw), s)
    ensures raw.key !in s.visited && s.nodes < MAX_NODES
    ensures Counted([raw], s, Entering(raw, s)) && Fits(PreorderAll(raw.children), Entering(raw, s))
  {
    var kids := PreorderAll(raw.children);
    assert Preorder(raw) == [raw] + kids;
    FitsSplit([raw], kids, s);
    hide Preorder, PreorderAll, Distinct;
    assert Keys([raw]) == [raw.key] && Keys([raw])[0] in Keys([raw]);
  }

  lemma NodeKeepsChildren(raw: RawNode, id: nat, generation: nat, children: seq<Node>)
    ensures NodeOf(raw, id, generation, children, raw.truncated).children == children
  {
  }

  lemma RootNumbered(raw: RawNode, first: nat, generation: nat, children: seq<Node>)
    ensures Numbered([NodeOf(raw, first, generation, children, raw.truncated)], [raw], first, generation)
  {
  }

  lemma {:induction false} NormalizeNumbers(w: World, raw: RawNode, depth: nat, generation: nat, s: NumberState)
    requires Shaped(w, raw, depth) && Fits(Preorder(raw), s)
    ensures var (after, node) := Normalize(raw, depth, generation, s);
      && node.Some? && Counted(Preorder(raw), s, after)
      && Numbered(Nodes(node.value), Preorder(raw), s.nextId, generation)
    decreases raw, |raw.children| + 1
  {
    var k := |raw.children|;
    assert raw.children[..k] == raw.children;
    RootFits(raw, s);
    var counted := Entering(raw, s);
    assert depth <= MAX_DEPTH && k <= MAX_CHILDREN && forall i | 0 <= i < k :: Shaped(w, raw.children[i], depth + 1);
    hide Counted, Fits, Numbered, Shaped, Keys, NormalizeChildren, NodeOf;
    NormalizeKids(w, raw, k, depth + 1, generation, counted);
    var (after, children, _) := NormalizeChildren(raw, k, depth + 1, generation, counted);
    CountedTwice([raw], PreorderAll(raw.children), s, counted, after);
    RootNumbered(raw, s.nextId, generation, children);
    NumberedTwice([NodeOf(raw, s.nextId, generation, children, raw.truncated)], [raw],
                  NodesAll(children), PreorderAll(raw.children), s.nextId, generation);
    NodeKeepsChildren(raw, s.nextId, generation, children);
  }

  lemma SoFar(children: seq<Node>, raws: seq<RawNode>, s: NumberState, before: NumberState, generation: nat)
    requires Counted(raws, s, before) && Numbered(NodesAll(children), raws, s.nextId, generation)
    ensures s.nextId + |NodesAll(children)| == before.nextId
  {
  }

  lemma {:induction false} NormalizeKids(w: World, raw: RawNode, k: nat, depth: nat, generation: nat, s: NumberState)
    requires k <= |raw.children| && forall i | 0 <= i < k :: Shaped(w, raw.children[i], depth)
    requires Fits(PreorderAll(raw.children[..k]), s)
    ensures var (after, children, cut) := NormalizeChildren(raw, k, depth, generation, s);
      && !cut && Counted(PreorderAll(raw.children[..k]), s, after)
      && Numbered(NodesAll(children), PreorderAll(raw.children[..k]), s.nextId, generation)
    decreases raw, k
  {
    if k > 0 {
      var kids, child := raw.children[..k - 1], raw.children[k - 1];
      assert raw.children[..k][..k - 1] == kids;
      FitsSplit(PreorderAll(kids), Preorder(child), s);
      NormalizeKids(w, raw, k - 1, depth, generation, s);
      var (before, children, _) := NormalizeChildren(raw, k - 1, depth, generation, s);
      NormalizeNumbers(w, child, depth, generation, before);
      hide Counted, Fits, Numbered, Shaped, Normalize;
      var (after, node) := Normalize(child, depth, generation, before);
      CountedTwice(PreorderAll(kids), Preorder(child), s, before, after);
      assert (children + [node.value])[..|children|] == children;
      SoFar(children, PreorderAll(kids), s, before, generation);
      NumberedTwice(NodesAll(children), PreorderAll(kids), Nodes(node.value), Preorder(child), s.nextId, generation);
    }
  }

  // ---------- the snapshot ----------

  const START := ReadState(0, 0, {}, [], [])

  /** What the stored elements say about `e{i}`. */
  datatype Entry = Entry(handle: Key, binding: Binding)

  function Smaller(a: nat, b: nat): nat { if a < b then a else b }

  /** The stored elements: handles zipped with bindings, by position. */
  function Entries(s: ReadState): map<nat, Entry> {
    map i | 0 <= i < Smaller(|s.handles|, |s.bindings|) :: Entry(s.handles[i], s.bindings[i])
  }

  method RefreshSnapshot(w: World, root: Key, generation: nat) returns (tree: Option<Node>, elements: map<nat, Entry>)
    ensures var (s, outcome) := ReadRaw(w, root, 0, START);
      if outcome.Read?
      then tree == Normalize(outcome.raw, 0, generation, NumberState(0, 0, {})).1 && elements == Entries(s)
      else tree == None && elements == map[]
  {
    hide ReadRaw, Normalize;
    elements := map[];
    var context := new ReadContext();
    var outcome := context.ReadElement(w, root, 0);
    if !outcome.Read? { return None, elements; }
    var normalizer := new NormalizeContext(generation);
    tree := normalizer.Visit(outcome.raw, 0);
    var n := Smaller(|context.handles|, |context.bindings|);
    for i := 0 to n
      invariant elements == map j | 0 <= j < i :: Entry(context.handles[j], context.bindings[j])
    {
      elements := elements[i := Entry(context.handles[i], context.bindings[i])];
    }
  }

  /** The stored entry of every numbered node is the element the node was made from, with its bindings. */
  ghost predicate Agrees(w: World, s: ReadState, raw: RawNode) {
    var shown := Preorder(raw);
    forall i | 0 <= i < |shown| ::
      i in Entries(s) && Entries(s)[i] == Entry(shown[i].key, BindingOf(w, shown[i].key))
  }

  /** No element failed before one that was read. */
  ghost predicate FailuresLast(w: World, log: seq<Key>) {
    forall i, j | 0 <= i < j < |log| :: Readable(w, log[j]) ==> Readable(w, log[i])
  }

  lemma {:induction false} GoodSubset(w: World, log: seq<Key>)
    requires Distinct(log)
    ensures Distinct(Good(w, log)) && |Good(w, log)| <= |log|
    ensures forall k :: k in Good(w, log) <==> k in log && Readable(w, k)
  {
    if log != [] {
      var n := |log| - 1;
      GoodSubset(w, log[..n]);
      assert log == log[..n] + [log[n]];
      assert log[n] !in log[..n];
    }
  }

  /** The tree of a snapshot numbers its nodes in preorder, and each shows its raw node. */
  lemma SnapshotNumbers(w: World, root: Key, generation: nat)
    requires ReadRaw(w, root, 0, START).1.Read?
    ensures var (s, outcome) := ReadRaw(w, root, 0, START);
      var tree := Normalize(outcome.raw, 0, generation, NumberState(0, 0, {})).1;
      && tree.Some? && Numbered(Nodes(tree.value), Preorder(outcome.raw), 0, generation)
      && Keys(Preorder(outcome.raw)) == Good(w, s.handles) && Distinct(s.handles)
      && s.bindings == Bound(w, s.handles) && Shaped(w, outcome.raw, 0)
  {
    var log := ReadLogs(w, root, 0, START);
    var (s, outcome) := ReadRaw(w, root, 0, START);
    assert s.handles == log && s.bindings == Bound(w, log) && Distinct(log) && |log| <= MAX_NODES;
    GoodSubset(w, log);
    assert |Preorder(outcome.raw)| <= MAX_NODES by { KeysLength(Preorder(outcome.raw)); }
    hide ReadRaw, Preorder, Good, Bound, Keys;
    NormalizeNumbers(w, outcome.raw, 0, generation, NumberState(0, 0, {}));
  }

  lemma {:induction false} AllGood(w: World, log: seq<Key>)
    requires forall i | 0 <= i < |log| :: Readable(w, log[i])
    ensures Good(w, log) == log && |Bound(w, log)| == |log|
    ensures forall i | 0 <= i < |log| :: Bound(w, log)[i] == BindingOf(w, log[i])
  {
    if log != [] {
      var n := |log| - 1;
      AllGood(w, log[..n]);
      assert Readable(w, log[n]) && !w.elements(log[n]).fault.Early?;
      assert Bound(w, log) == Bound(w, log[..n]) + [BindingOf(w, log[n])];
      assert Good(w, log) == log[..n] + [log[n]];
      hide Good, Bound, Readable, BindingOf;
    }
  }

  /** A log whose failures come last begins with its good elements, bindings alike. */
  lemma {:induction false} FailuresLastPrefix(w: World, log: seq<Key>)
    requires FailuresLast(w, log)
    ensures Good(w, log) <= log && |Good(w, log)| <= |Bound(w, log)|
    ensures forall i | 0 <= i < |Good(w, log)| :: Bound(w, log)[i] == BindingOf(w, log[i])
  {
    if log != [] {
      var n := |log| - 1;
      var before := log[..n];
      assert forall i, j | 0 <= i < j < n :: before[i] == log[i] && before[j] == log[j];
      FailuresLastPrefix(w, before);
      if Readable(w, log[n]) {
        AllGood(w, before);
      }
    }
  }

  /** Good elements that begin a log of distinct keys leave its failures last. */
  lemma PrefixFailuresLast(w: World, log: seq<Key>)
    requires Distinct(log) && Good(w, log) <= log
    ensures FailuresLast(w, log)
  {
    GoodSubset(w, log);
    var good := Good(w, log);
    hide Good;
    forall i, j | 0 <= i < j < |log| && Readable(w, log[j]) ensures Readable(w, log[i]) {
      assert log[j] in good;
      var k :| 0 <= k < |good| && good[k] == log[j];
      assert log[k] == log[j] && k == j;
      assert good[i] == log[i] && good[i] in good;
    }
  }

  lemma FailuresLastAgrees(w: World, s: ReadState, raw: RawNode)
    requires FailuresLast(w, s.handles) && Keys(Preorder(raw)) == Good(w, s.handles)
    requires s.bindings == Bound(w, s.handles)
    ensures Agrees(w, s, raw)
  {
    var shown := Preorder(raw);
    FailuresLastPrefix(w, s.handles);
    assert |shown| == |Keys(shown)| && forall i | 0 <= i < |shown| :: Keys(shown)[i] == shown[i].key;
    hide FailuresLast, Good, Bound, Preorder, Keys;
  }

  lemma AgreementPrefix(w: World, s: ReadState, raw: RawNode)
    requires Agrees(w, s, raw) && Keys(Preorder(raw)) == Good(w, s.handles)
    ensures Good(w, s.handles) <= s.handles
  {
    var shown := Preorder(raw);
    assert |shown| == |Keys(shown)| && forall i | 0 <= i < |shown| :: Keys(shown)[i] == shown[i].key;
    forall i | 0 <= i < |shown| ensures i < |s.handles| && s.handles[i] == Good(w, s.handles)[i] {
      assert i in Entries(s);
    }
    if shown != [] {
      assert |shown| - 1 in Entries(s);
    }
    assert Good(w, s.handles) == s.handles[..|shown|];
  }

  /** Main result: the stored elements agree with the numbered nodes exactly when no element failed to be
      read before one that was read. */
  lemma AgreementExact(w: World, root: Key)
    requires ReadRaw(w, root, 0, START).1.Read?
    ensures var (s, outcome) := ReadRaw(w, root, 0, START);
      Agrees(w, s, outcome.raw) <==> FailuresLast(w, s.handles)
  {
    var (s, outcome) := ReadRaw(w, root, 0, START);
    SnapshotNumbers(w, root, 0);
    hide ReadRaw, Normalize, Numbered, Shaped, Agrees, FailuresLast;
    if FailuresLast(w, s.handles) {
      FailuresLastAgrees(w, s, outcome.raw);
    }
    if Agrees(w, s, outcome.raw) {
      AgreementPrefix(w, s, outcome.raw);
      PrefixFailuresLast(w, s.handles);
    }
  }

  /** When no read fails, `e{i}` names one element everywhere: its node, its handle and its bindings. */
  lemma NoFailureAgrees(w: World, root: Key, generation: nat, i: nat)
    requires forall k :: Readable(w, k)
    requires ReadRaw(w, root, 0, START).1.Read?
    requires i < |ReadRaw(w, root, 0, START).0.handles|
    ensures var (s, outcome) := ReadRaw(w, root, 0, START);
      var tree := Normalize(outcome.raw, 0, generation, NumberState(0, 0, {})).1;
      var key := s.handles[i];
      && tree.Some? && |Nodes(tree.value)| == |Preorder(outcome.raw)| == |s.handles| == |s.bindings|
      && s.bindings[i] == BindingOf(w, key)
      && var node := Nodes(tree.value)[i];
         node.id == i && Preorder(outcome.raw)[i].key == key && Shows(node, Preorder(outcome.raw)[i], generation)
  {
    var (s, outcome) := ReadRaw(w, root, 0, START);
    SnapshotNumbers(w, root, generation);
    AllGood(w, s.handles);
    KeysLength(Preorder(outcome.raw));
    assert Keys(Preorder(outcome.raw))[i] == Preorder(outcome.raw)[i].key;
    hide ReadRaw, Normalize, Good, Bound;
  }

  /** One failed element shifts the numbering: with two children of which the first fails, the node
      numbered 1 shows the second child while the handle stored for it is the first. */
  lemma FailedSiblingShifts(w: World, root: Key, a: Key, b: Key)
    requires root != a && root != b && a != b && w.visits >= 3
    requires w.elements(root).fault.NoFault? && w.elements(root).children == [a, b]
    requires w.elements(a).configurable && !w.elements(a).fault.NoFault?
    requires w.elements(b).configurable && w.elements(b).fault.NoFault? && w.elements(b).children == []
    ensures var (s, outcome) := ReadRaw(w, root, 0, START);
      && outcome.Read? && |Preorder(outcome.raw)| == 2 && Preorder(outcome.raw)[1].key == b
      && |s.handles| == 3 && s.handles[1] == a
  {
    var s1 := Entered(w, root, START);
    var s2 := ReadRaw(w, a, 1, s1).0;
    var (s3, read) := ReadRaw(w, b, 1, s2);
    assert ReadChildren(w, [], 1, s2) == (s2, [], false);
    assert [a, b][..1] == [a] && [a][..0] == [];
    assert ReadChildren(w, [a], 1, s1) == (s2, [], true);
    assert s3.handles == [root, a, b] && read == Read(RawOf(b, w.elements(b), [], false));
    assert [] + [read.raw] == [read.raw];
    assert ReadChildren(w, [a, b], 1, s1) == (s3, [read.raw], true);
    assert ReadRaw(w, root, 0, START) == (s3, Read(RawOf(root, w.elements(root), [read.raw], true)));
    hide ReadRaw, ReadChildren;
    assert [read.raw][..0] == [];
    assert Preorder(read.raw) == [read.raw];
  }

  lemma {:induction false} ShapedThroughout(w: World, raw: RawNode, depth: nat)
    requires Shaped(w, raw, depth)
    ensures forall r | r in Preorder(raw) :: r == RawOf(r.key, w.elements(r.key), r.children, r.truncated)
    decreases raw, |raw.children| + 1
  {
    assert raw.children[..|raw.children|] == raw.children;
    ShapedThroughoutKids(w, raw, |raw.children|, depth + 1);
  }

  lemma {:induction false} ShapedThroughoutKids(w: World, raw: RawNode, k: nat, depth: nat)
    requires k <= |raw.children| && forall i | 0 <= i < k :: Shaped(w, raw.children[i], depth)
    ensures forall r | r in PreorderAll(raw.children[..k]) ::
      r == RawOf(r.key, w.elements(r.key), r.children, r.truncated)
    decreases raw, k
  {
    if k > 0 {
      assert raw.children[..k][..k - 1] == raw.children[..k - 1];
      ShapedThroughoutKids(w, raw, k - 1, depth);
      ShapedThroughout(w, raw.children[k - 1], depth);
    }
  }

  /** What a node shows of its element, field by field. */
  predicate ShowsElement(n: Node, e: Element, generation: nat) {
    && n.generation == generation
    && n.role == Sanitize(e.role, 256) && n.subrole == Sanitize(e.subrole, 256) && n.title == Sanitize(e.title, 256)
    && n.value == (if e.role == Some("AXSecureTextField") then None else Sanitize(e.value, 256))
    && n.bounds == e.bounds && n.enabled == e.enabled && n.focused == e.focused
    && n.actions == e.actions && n.settable == e.settable
  }

  /** Every node of a snapshot shows its element's attributes, each in its place. */
  lemma SnapshotShowsElements(w: World, root: Key, generation: nat, i: nat)
    requires ReadRaw(w, root, 0, START).1.Read?
    requires i < |Preorder(ReadRaw(w, root, 0, START).1.raw)|
    ensures var (s, outcome) := ReadRaw(w, root, 0, START);
      var tree := Normalize(outcome.raw, 0, generation, NumberState(0, 0, {})).1;
      && tree.Some? && i < |Nodes(tree.value)|
      && ShowsElement(Nodes(tree.value)[i], w.elements(Preorder(outcome.raw)[i].key), generation)
  {
    SnapshotNumbers(w, root, generation);
    var raw := ReadRaw(w, root, 0, START).1.raw;
    ShapedThroughout(w, raw, 0);
    var r := Preorder(raw)[i];
    assert r in Preorder(raw);
    hide ReadRaw, Normalize, Preorder, Good, Bound, Keys, Sanitize;
  }

  lemma {:induction false} PortraysThroughout(w: World, raw: RawNode)
    requires PortraysAll(w, raw)
    ensures forall r | r in Preorder(raw) :: Portrays(r, w.elements(r.key))
    decreases raw, |raw.children| + 1
  {
    assert raw.children[..|raw.children|] == raw.children;
    PortraysKids(w, raw, |raw.children|);
  }

  lemma {:induction false} PortraysKids(w: World, raw: RawNode, k: nat)
    requires k <= |raw.children| && forall i | 0 <= i < k :: PortraysAll(w, raw.children[i])
    ensures forall r | r in PreorderAll(raw.children[..k]) :: Portrays(r, w.elements(r.key))
    decreases raw, k
  {
    if k > 0 {
      assert raw.children[..k][..k - 1] == raw.children[..k - 1];
      PortraysKids(w, raw, k - 1);
      PortraysThroughout(w, raw.children[k - 1]);
    }
  }

  /** How much of its element a node shows: it is marked truncated exactly when one of the first 128 children is
      missing, so that every child is shown exactly when it is not marked and there are no more than 128. */
  lemma TruncatedExactly(w: World, root: Key, generation: nat, i: nat)
    requires ReadRaw(w, root, 0, START).1.Read?
    requires i < |Preorder(ReadRaw(w, root, 0, START).1.raw)|
    ensures var (s, outcome) := ReadRaw(w, root, 0, START);
      var tree := Normalize(outcome.raw, 0, generation, NumberState(0, 0, {})).1;
      && tree.Some? && i < |Nodes(tree.value)|
      && var node, e := Nodes(tree.value)[i], w.elements(Preorder(outcome.raw)[i].key);
         && (node.truncated <==> node.childrenCount < |e.children| && node.childrenCount < 128)
         && node.childrenCount <= 128 && node.childrenCount <= |e.children|
         && (node.childrenCount == |e.children| <==> !node.truncated && |e.children| <= 128)
  {
    SnapshotNumbers(w, root, generation);
    var raw := ReadRaw(w, root, 0, START).1.raw;
    ReadPortrays(w, root, 0, START);
    PortraysThroughout(w, raw);
    var r := Preorder(raw)[i];
    assert r in Preorder(raw);
    hide ReadRaw, Normalize, Preorder, Good, Bound, Keys, Sanitize, InOrder;
  }

  /** An element that is read without trouble and has no children. */
  predicate Leaf(w: World, key: Key) {
    Readable(w, key) && w.elements(key).configurable && w.elements(key).children == []
  }

  lemma {:induction false} LeavesRead(w: World, keys: seq<Key>, s: ReadState)
    requires Distinct(keys) && forall k | k in keys :: Leaf(w, k) && k !in s.visited
    requires s.visits + |keys| <= w.visits && s.nodes + |keys| <= MAX_NODES
    ensures var (after, children, truncated) := ReadChildren(w, keys, 1, s);
      && |children| == |keys| && !truncated
      && after.visits == s.visits + |keys| && after.nodes == s.nodes + |keys|
      && forall k | k in after.visited :: k in s.visited || k in keys
  {
    if keys != [] {
      var n := |keys| - 1;
      assert keys == keys[..n] + [keys[n]];
      LeavesRead(w, keys[..n], s);
      var (before, children, _) := ReadChildren(w, keys[..n], 1, s);
      assert keys[n] in keys && keys[n] !in keys[..n] && keys[n] !in before.visited;
      assert Leaf(w, keys[n]) && Take(w.elements(keys[n]).children, MAX_CHILDREN) == [];
      assert ReadRaw(w, keys[n], 1, before).1.Read?;
    }
  }

  /** The failing case: of any element with more than 128 readable children exactly 128 are read, and nothing
      marks that. */
  lemma WideElementUnmarked(w: World, root: Key)
    requires var keys := w.elements(root).children;
      |keys| > 128 && Distinct(keys) && root !in keys && forall k | k in keys :: Leaf(w, k)
    requires Readable(w, root) && w.visits >= 129
    ensures var outcome := ReadRaw(w, root, 0, START).1;
      outcome.Read? && |outcome.raw.children| == 128 && !outcome.raw.truncated
  {
    var e := w.elements(root);
    var bound := ReadState(1, 1, {root}, [root], [Binding(e.actions, e.settable)]);
    var keys := e.children[..128];
    assert Take(e.children, MAX_CHILDREN) == keys;
    assert forall k | k in keys :: k in e.children;
    LeavesRead(w, keys, bound);
    hide ReadChildren;
    var (after, children, truncated) := ReadChildren(w, keys, 1, bound);
    var logged := Logged(START.(visits := START.visits + 1), root);
    assert logged.(bindings := logged.bindings + [Binding(e.actions, e.settable)]) == bound;
    assert ReadRaw(w, root, 0, START) == (after, Read(RawOf(root, e, children, truncated)));
  }

  predicate CleanText(s: Option<string>) {
    s.Some? ==> |s.value| <= 256 && forall c | c in s.value :: !IsControl(c) || c == '\t'
  }

  lemma SanitizeClean(s: Option<string>, limit: nat)
    requires limit <= 256
    ensures CleanText(Sanitize(s, limit))
  {
    if s.Some? {
      CleanSound(s.value);
    }
  }

  /** No node of a snapshot carries the value of a secure field, and every text is bounded and clean. */
  lemma SnapshotIsSafe(w: World, root: Key, generation: nat, i: nat)
    requires ReadRaw(w, root, 0, START).1.Read?
    requires i < |Preorder(ReadRaw(w, root, 0, START).1.raw)|
    ensures var (s, outcome) := ReadRaw(w, root, 0, START);
      var tree := Normalize(outcome.raw, 0, generation, NumberState(0, 0, {})).1;
      && tree.Some? && i < |Nodes(tree.value)|
      && var node, raw := Nodes(tree.value)[i], Preorder(outcome.raw)[i];
         && (w.elements(raw.key).role == Some("AXSecureTextField") ==> node.value == None)
         && CleanText(node.role) && CleanText(node.subrole) && CleanText(node.title) && CleanText(node.value)
  {
    SnapshotNumbers(w, root, generation);
    var raw := ReadRaw(w, root, 0, START).1.raw;
    ShapedThroughout(w, raw, 0);
    var r := Preorder(raw)[i];
    assert r in Preorder(raw);
    hide ReadRaw, Normalize, Preorder, Good, Bound, Keys;
    SanitizeClean(r.role, MAX_STRING_CHARS);
    SanitizeClean(r.subrole, MAX_STRING_CHARS);
    SanitizeClean(r.title, MAX_STRING_CHARS);
    SanitizeClean(r.value, MAX_VALUE_CHARS);
    hide Sanitize, CleanText;
  }
}
