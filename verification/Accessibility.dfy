/** The two traversals behind an accessibility snapshot: reading native elements into a raw tree while
    logging their handles, and normalising the raw tree into numbered nodes. */
module Accessibility {
  import opened Wrappers

  const MAX_DEPTH: nat := 16
  const MAX_NODES: nat := 512
  const MAX_CHILDREN: nat := 128
  const MAX_STRING_CHARS: nat := 256
  const MAX_VALUE_CHARS: nat := 256

  /** An element's identity: the address of the native object. */
  type Key = nat

  datatype Rect = Rect(x: real, y: real, width: real, height: real)

  /** Where reading an element's attributes fails: before its bindings are logged, or after. */
  datatype Fault = NoFault | Early | Late

  /** One native element as a snapshot would read it. */
  datatype Element = Element(
    role: Option<string>, subrole: Option<string>, title: Option<string>, value: Option<string>,
    bounds: Option<Rect>, enabled: Option<bool>, focused: Option<bool>,
    actions: seq<string>, settable: bool, children: seq<Key>,
    fault: Fault, configurable: bool)

  /** The native side: every element's reading, and the number of visits before the time budget is spent. */
  datatype World = World(elements: Key -> Element, visits: nat)

  datatype Binding = Binding(actions: seq<string>, settable: bool)

  datatype RawNode = RawNode(
    key: Key, role: Option<string>, subrole: Option<string>, title: Option<string>, value: Option<string>,
    bounds: Option<Rect>, enabled: Option<bool>, focused: Option<bool>,
    secure: bool, actions: seq<string>, settable: bool, children: seq<RawNode>, truncated: bool)

  datatype Node = Node(
    id: nat, generation: nat,
    role: Option<string>, subrole: Option<string>, title: Option<string>, value: Option<string>,
    bounds: Option<Rect>, enabled: Option<bool>, focused: Option<bool>,
    childrenCount: nat, children: seq<Node>, truncated: bool, actions: seq<string>, settable: bool)

  // ---------- reading ----------

  datatype ReadState = ReadState(
    visits: nat, nodes: nat, visited: set<Key>, handles: seq<Key>, bindings: seq<Binding>)

  /** A visit reads the element, passes it over, or fails. */
  datatype Outcome = Read(raw: RawNode) | Skipped | Failed

  predicate IsSecure(role: Option<string>) { role == Some("AXSecureTextField") }

  function RawOf(key: Key, e: Element, children: seq<RawNode>, truncated: bool): RawNode {
    RawNode(key, e.role, e.subrole, e.title, if IsSecure(e.role) then None else e.value,
            e.bounds, e.enabled, e.focused, IsSecure(e.role), e.actions, e.settable, children, truncated)
  }

  function Take<T>(s: seq<T>, n: nat): seq<T> { if |s| > n then s[..n] else s }

  function Room(depth: nat): nat { if depth > MAX_DEPTH then 0 else MAX_DEPTH + 1 - depth }

  function Logged(s: ReadState, key: Key): ReadState {
    s.(nodes := s.nodes + 1, visited := s.visited + {key}, handles := s.handles + [key])
  }

  predicate Skips(w: World, key: Key, depth: nat, s: ReadState) {
    s.visits >= w.visits || depth > MAX_DEPTH || s.nodes >= MAX_NODES || key in s.visited
  }

  function ReadRaw(w: World, key: Key, depth: nat, s: ReadState): (ReadState, Outcome)
    decreases Room(depth), 0
  {
    var counted := s.(visits := s.visits + 1);
    if Skips(w, key, depth, s) then (counted, Skipped)
    else
      var e := w.elements(key);
      var logged := Logged(counted, key);
      if e.fault.Early? then (logged, Failed)
      else
        var bound := logged.(bindings := logged.bindings + [Binding(e.actions, e.settable)]);
        if e.fault.Late? then (bound, Failed)
        else
          var (after, children, truncated) := ReadChildren(w, Take(e.children, MAX_CHILDREN), depth + 1, bound);
          (after, Read(RawOf(key, e, children, truncated)))
  }

  function ReadChildren(w: World, keys: seq<Key>, depth: nat, s: ReadState): (ReadState, seq<RawNode>, bool)
    decreases Room(depth), |keys|
  {
    if keys == [] then (s, [], false)
    else
      var n := |keys| - 1;
      var (before, children, truncated) := ReadChildren(w, keys[..n], depth, s);
      if !w.elements(keys[n]).configurable then (before, children, true)
      else
        var (after, outcome) := ReadRaw(w, keys[n], depth, before);
        if outcome.Read? then (after, children + [outcome.raw], truncated) else (after, children, true)
  }

  /** What a visit comes to: an element is passed over when the time or a bound of the traversal is spent or it was
      seen before, and otherwise fails exactly when its attributes do. Every visit counts. */
  lemma VisitExactly(w: World, key: Key, depth: nat, s: ReadState)
    ensures var (after, outcome) := ReadRaw(w, key, depth, s);
      var over := s.visits >= w.visits || depth > 16 || s.nodes >= 512 || key in s.visited;
      var e := w.elements(key);
      && (outcome.Skipped? <==> over) && (outcome.Failed? <==> !over && e.fault != NoFault)
      && (over ==> after == s.(visits := s.visits + 1))
      && (outcome.Failed? ==> after == ReadState(
            s.visits + 1, s.nodes + 1, s.visited + {key}, s.handles + [key],
            s.bindings + if e.fault.Late? then [Binding(e.actions, e.settable)] else []))
  {
    hide ReadChildren;
  }

  /** How many of its children are looked at. */
  function Width(e: Element): nat { if |e.children| > 128 then 128 else |e.children| }

  /** The keys of `raws` are some of `keys`, in their order. */
  ghost predicate InOrder(raws: seq<RawNode>, keys: seq<Key>)
    decreases |keys|
  {
    if keys == [] then raws == []
    else
      var n := |keys| - 1;
      || InOrder(raws, keys[..n])
      || (raws != [] && raws[|raws| - 1].key == keys[n] && InOrder(raws[..|raws| - 1], keys[..n]))
  }

  /** A raw node of an element: its attributes, without the value of a secure field, and those of its first 128
      children that were read; it says so when one of these is missing. */
  ghost predicate Portrays(raw: RawNode, e: Element) {
    && raw.role == e.role && raw.subrole == e.subrole && raw.title == e.title
    && raw.value == (if e.role == Some("AXSecureTextField") then None else e.value)
    && (raw.secure <==> e.role == Some("AXSecureTextField"))
    && raw.bounds == e.bounds && raw.enabled == e.enabled && raw.focused == e.focused
    && raw.actions == e.actions && raw.settable == e.settable
    && InOrder(raw.children, e.children[..Width(e)])
    && |raw.children| <= Width(e) && (raw.truncated <==> |raw.children| < Width(e))
  }

  ghost predicate PortraysAll(w: World, raw: RawNode)
    decreases raw
  {
    Portrays(raw, w.elements(raw.key)) && forall i | 0 <= i < |raw.children| :: PortraysAll(w, raw.children[i])
  }

  lemma {:induction false} ReadPortrays(w: World, key: Key, depth: nat, s: ReadState)
    ensures var outcome := ReadRaw(w, key, depth, s).1;
      outcome.Read? ==> outcome.raw.key == key && PortraysAll(w, outcome.raw)
    decreases Room(depth), 0
  {
    var outcome := ReadRaw(w, key, depth, s).1;
    if outcome.Read? {
      var e := w.elements(key);
      var counted := s.(visits := s.visits + 1);
      var bound := Logged(counted, key).(bindings := counted.bindings + [Binding(e.actions, e.settable)]);
      ChildrenPortrayed(w, Take(e.children, MAX_CHILDREN), depth + 1, bound);
      hide ReadChildren, InOrder;
      assert Take(e.children, MAX_CHILDREN) == e.children[..Width(e)];
      var (_, children, truncated) := ReadChildren(w, e.children[..Width(e)], depth + 1, bound);
      assert outcome.raw == RawOf(key, e, children, truncated);
      hide ReadRaw;
    }
  }

  lemma {:induction false} ChildrenPortrayed(w: World, keys: seq<Key>, depth: nat, s: ReadState)
    ensures var (_, children, truncated) := ReadChildren(w, keys, depth, s);
      && InOrder(children, keys) && |children| <= |keys| && (truncated <==> |children| < |keys|)
      && forall i | 0 <= i < |children| :: PortraysAll(w, children[i])
    decreases Room(depth), |keys|
  {
    if keys != [] {
      var n := |keys| - 1;
      ChildrenPortrayed(w, keys[..n], depth, s);
      var (before, children, _) := ReadChildren(w, keys[..n], depth, s);
      if w.elements(keys[n]).configurable {
        ReadPortrays(w, keys[n], depth, before);
        var outcome := ReadRaw(w, keys[n], depth, before).1;
        if outcome.Read? {
          assert (children + [outcome.raw])[..|children|] == children;
        }
      }
      hide ReadRaw, PortraysAll;
    }
  }

  class ReadContext {
    var visits: nat
    var nodes: nat
    var visited: set<Key>
    var handles: seq<Key>
    var bindings: seq<Binding>

    constructor ()
      ensures State() == ReadState(0, 0, {}, [], [])
    {
      visits, nodes, visited, handles, bindings := 0, 0, {}, [], [];
    }

    function State(): ReadState
      reads this
    {
      ReadState(visits, nodes, visited, handles, bindings)
    }

    method ReadElement(w: World, key: Key, depth: nat) returns (outcome: Outcome)
      modifies this
      ensures (State(), outcome) == ReadRaw(w, key, depth, old(State()))
      decreases Room(depth)
    {
      var expired := visits >= w.visits;
      visits := visits + 1;
      if expired { return Skipped; }
      if depth > MAX_DEPTH || nodes >= MAX_NODES || key in visited { return Skipped; }
      visited := visited + {key};
      nodes := nodes + 1;
      handles := handles + [key];
      var e := w.elements(key);
      if e.fault.Early? { return Failed; }
      bindings := bindings + [Binding(e.actions, e.settable)];
      if e.fault.Late? { return Failed; }
      ghost var bound := State();
      var keys := Take(e.children, MAX_CHILDREN);
      var children, truncated := [], false;
      for i := 0 to |keys|
        invariant (State(), children, truncated) == ReadChildren(w, keys[..i], depth + 1, bound)
      {
        assert keys[..i + 1][..i] == keys[..i];
        if !w.elements(keys[i]).configurable {
          truncated := true;
          continue;
        }
        var child := ReadElement(w, keys[i], depth + 1);
        if child.Read? {
          children := children + [child.raw];
        } else {
          truncated := true;
        }
      }
      assert keys[..|keys|] == keys;
      return Read(RawOf(key, e, children, truncated));
    }
  }

  // ---------- normalising ----------

  /** The control characters of Unicode. */
  predicate IsControl(c: char) { c <= '\U{1F}' || '\U{7F}' <= c <= '\U{9F}' }

  function Clean(s: string): string {
    if s == [] then []
    else if IsControl(s[0]) && s[0] != '\n' && s[0] != '\t' then Clean(s[1..])
    else [if s[0] == '\n' then ' ' else s[0]] + Clean(s[1..])
  }

  function Sanitize(s: Option<string>, limit: nat): Option<string> {
    if s.None? then None else Some(Take(Clean(s.value), limit))
  }

  lemma {:induction false} CleanSound(s: string)
    ensures |Clean(s)| <= |s| && forall c | c in Clean(s) :: !IsControl(c) || c == '\t'
  {
    if s != [] {
      CleanSound(s[1..]);
    }
  }

  lemma {:induction false} CleanAppend(a: string, b: string)
    ensures Clean(a + b) == Clean(a) + Clean(b)
  {
    if a == [] {
      assert a + b == b;
    } else {
      assert (a + b)[0] == a[0] && (a + b)[1..] == a[1..] + b;
      CleanAppend(a[1..], b);
    }
  }

  /** Cleaning goes character by character: a newline becomes a space, a tab and every other character from a space
      on stays, and the other control codes go. */
  lemma CleanExactly(a: string, c: char, b: string)
    ensures var n := c as int;
      Clean(a + [c] + b) == Clean(a)
        + (if n == 10 then " " else if n == 9 || 32 <= n < 127 || n >= 160 then [c] else "") + Clean(b)
    ensures Clean([]) == []
  {
    CleanAppend(a + [c], b);
    CleanAppend(a, [c]);
    assert [c][1..] == [];
    assert Clean([c]) == if IsControl(c) && c != '\n' && c != '\t' then [] else [if c == '\n' then ' ' else c] + [];
  }

  function ShownValue(raw: RawNode): Option<string> {
    if raw.secure || IsSecure(raw.role) then (if raw.value.Some? then Some("[redacted]") else None)
    else Sanitize(raw.value, MAX_VALUE_CHARS)
  }

  function NodeOf(raw: RawNode, id: nat, generation: nat, children: seq<Node>, truncated: bool): Node {
    Node(id, generation, Sanitize(raw.role, MAX_STRING_CHARS), Sanitize(raw.subrole, MAX_STRING_CHARS),
         Sanitize(raw.title, MAX_STRING_CHARS), ShownValue(raw), raw.bounds, raw.enabled, raw.focused,
         |raw.children|, children, truncated, raw.actions, raw.settable)
  }

  datatype NumberState = NumberState(nodes: nat, nextId: nat, visited: set<Key>)

  function Normalize(raw: RawNode, depth: nat, generation: nat, s: NumberState): (NumberState, Option<Node>)
    decreases raw, |raw.children| + 1
  {
    if depth > MAX_DEPTH || s.nodes >= MAX_NODES || raw.key in s.visited then (s, None)
    else
      var counted := NumberState(s.nodes + 1, s.nextId + 1, s.visited + {raw.key});
      var width := if |raw.children| > MAX_CHILDREN then MAX_CHILDREN else |raw.children|;
      var (after, children, cut) := NormalizeChildren(raw, width, depth + 1, generation, counted);
      (after, Some(NodeOf(raw, s.nextId, generation, children, raw.truncated || cut || |raw.children| > MAX_CHILDREN)))
  }

  /** The first `k` children, up to the first that is refused. */
  function NormalizeChildren(raw: RawNode, k: nat, depth: nat, generation: nat, s: NumberState)
    : (NumberState, seq<Node>, bool)
    requires k <= |raw.children|
    decreases raw, k
  {
    if k == 0 then (s, [], false)
    else
      var (before, children, cut) := NormalizeChildren(raw, k - 1, depth, generation, s);
      if cut then (before, children, true)
      else
        var (after, node) := Normalize(raw.children[k - 1], depth, generation, before);
        if node.Some? then (after, children + [node.value], false) else (after, children, true)
  }

  /** The normaliser refuses a node beyond its bounds or met before, and numbers every other one next. */
  lemma NormalizeExactly(raw: RawNode, depth: nat, generation: nat, s: NumberState)
    ensures var (after, node) := Normalize(raw, depth, generation, s);
      && (node.None? <==> depth > 16 || s.nodes >= 512 || raw.key in s.visited)
      && (node.None? ==> after == s)
      && (node.Some? ==> node.value.id == s.nextId && node.value.generation == generation
                         && node.value.childrenCount == |raw.children|
                         && (|raw.children| > 128 || raw.truncated ==> node.value.truncated))
  {
    hide NormalizeChildren;
  }

  /** Once a child is refused, the remaining ones are not looked at. */
  lemma {:induction false} CutStays(raw: RawNode, i: nat, k: nat, depth: nat, generation: nat, s: NumberState)
    requires i <= k <= |raw.children| && NormalizeChildren(raw, i, depth, generation, s).2
    ensures NormalizeChildren(raw, k, depth, generation, s) == NormalizeChildren(raw, i, depth, generation, s)
    decreases k
  {
    hide Normalize;
    if i < k {
      CutStays(raw, i, k - 1, depth, generation, s);
    }
  }

  class NormalizeContext {
    const generation: nat
    var nodes: nat
    var nextId: nat
    var visited: set<Key>

    constructor (generation: nat)
      ensures this.generation == generation && State() == NumberState(0, 0, {})
    {
      this.generation := generation;
      nodes, nextId, visited := 0, 0, {};
    }

    function State(): NumberState
      reads this
    {
      NumberState(nodes, nextId, visited)
    }

    method Visit(raw: RawNode, depth: nat) returns (node: Option<Node>)
      modifies this
      ensures (State(), node) == Normalize(raw, depth, generation, old(State()))
      decreases raw, 1
    {
      hide NormalizeChildren, NodeOf;
      if depth > MAX_DEPTH || nodes >= MAX_NODES || raw.key in visited { return None; }
      visited := visited + {raw.key};
      nodes := nodes + 1;
      var id := nextId;
      nextId := nextId + 1;
      var width := if |raw.children| > MAX_CHILDREN then MAX_CHILDREN else |raw.children|;
      var children, cut := VisitChildren(raw, width, depth + 1);
      var truncated := raw.truncated || cut;
      if |raw.children| > MAX_CHILDREN {
        truncated := true;
      }
      return Some(NodeOf(raw, id, generation, children, truncated));
    }

    /** The loop over a node's children, left at the first one that is refused. */
    method VisitChildren(raw: RawNode, width: nat, depth: nat) returns (children: seq<Node>, cut: bool)
      requires width <= |raw.children|
      modifies this
      ensures (State(), children, cut) == NormalizeChildren(raw, width, depth, generation, old(State()))
      decreases raw, 0
    {
      hide Normalize;
      children, cut := [], false;
      for i := 0 to width
        invariant (State(), children, cut) == NormalizeChildren(raw, i, depth, generation, old(State())) && !cut
      {
        var child := Visit(raw.children[i], depth);
        if child.None? {
          CutStays(raw, i + 1, width, depth, generation, old(State()));
          return children, true;
        }
        children := children + [child.value];
      }
    }
  }
}
