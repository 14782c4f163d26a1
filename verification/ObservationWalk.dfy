/** The observation walk: one pass over the page, its open shadow roots and its
    same-origin frames, that lists what a caller can act on. */
module ObservationWalk {

  import opened Wrappers

  const NODE_LIMIT := 100
  const SCAN_LIMIT := 2000

  // ---- The page ----

  datatype Elem = Elem(id: nat)
  datatype RootId = RootId(id: nat)

  /** What the walk asks of one element: `docRoot` is the document of a frame the
      page may read, `hasPath` that the element can be named from outside. */
  datatype Facts = Facts(semantic: bool, pointer: bool, shadowRoot: Option<RootId>, hasPath: bool,
                         isIframe: bool, docRoot: Option<RootId>, url: string)

  datatype FormFacts = FormFacts(action: string, controls: seq<Elem>)

  /** A document or a shadow root: the elements below its start, in tree order. */
  datatype Root = Root(hasStart: bool, elements: seq<Elem>, active: Option<Elem>, forms: seq<FormFacts>)

  /** Nothing here says that the page is a tree: roots may share elements, or lead
      to each other in circles. */
  datatype Dom = Dom(root: RootId -> Root, facts: Elem -> Facts, main: RootId, url: string)

  predicate Wanted(dom: Dom, el: Elem) {
    dom.facts(el).semantic || dom.facts(el).pointer
  }

  function Elements(dom: Dom, root: RootId): seq<Elem> {
    if dom.root(root).hasStart then dom.root(root).elements else []
  }

  // ---- What is reported ----

  datatype Ref = Obs(n: nat)
  datatype FrameId = MainFrame | Iframe(n: nat)
  datatype Frame = Frame(id: FrameId, url: string)
  datatype Node = Node(ref: Ref, el: Elem, frame: FrameId, frameRef: Option<FrameId>, focused: bool)

  /** `known` stands for the moment the form was read: the number of nodes there were. */
  datatype Form = Form(n: nat, action: string, fieldRefs: seq<Ref>, known: nat)
  datatype Reason = ScanLimitExceeded | NodeLimitExceeded
  datatype Truncation = Truncation(reason: Reason, scanned: nat, emitted: nat)

  datatype State = State(nodes: seq<Node>, forms: seq<Form>, frames: seq<Frame>,
                         refs: map<Elem, Ref>, iframeIds: map<Elem, FrameId>,
                         nextNode: nat, nextForm: nat, nextFrame: nat,
                         scanned: nat, truncated: Option<Truncation>, focusedRef: Option<Ref>)

  function Started(dom: Dom): State {
    State([], [], [Frame(MainFrame, dom.url)], map[], map[], 0, 0, 0, 0, None, None)
  }

  // ---- The walk, as functions of its state ----

  function Truncated(st: State, reason: Reason): State {
    if st.truncated.Some? then st
    else st.(truncated := Some(Truncation(reason, st.scanned, |st.nodes|)))
  }

  function Counted(st: State): State {
    if st.scanned >= SCAN_LIMIT then Truncated(st, ScanLimitExceeded) else st.(scanned := st.scanned + 1)
  }

  /** Afterwards the element is in `iframeIds`. */
  function WithFrame(dom: Dom, st: State, el: Elem): (r: State)
    ensures el in r.iframeIds && r.scanned == st.scanned && r.truncated == st.truncated
  {
    if el in st.iframeIds then st
    else
      var id := Iframe(st.nextFrame);
      st.(nextFrame := st.nextFrame + 1, iframeIds := st.iframeIds[el := id],
          frames := st.frames + [Frame(id, dom.facts(el).url)])
  }

  function Emitted(dom: Dom, st: State, root: RootId, frame: FrameId, el: Elem): (r: State)
    ensures r.scanned == st.scanned
    ensures r.truncated.None? ==> el in r.refs
  {
    if el in st.refs then st
    else if |st.nodes| >= NODE_LIMIT then Truncated(st, NodeLimitExceeded)
    else
      var ref := Obs(st.nextNode);
      var framed := if dom.facts(el).isIframe then WithFrame(dom, st, el) else st;
      var frameRef := if dom.facts(el).isIframe then Some(framed.iframeIds[el]) else None;
      var focused := dom.root(root).active == Some(el);
      WithNode(framed, Node(ref, el, frame, frameRef, focused))
  }

  function WithNode(st: State, node: Node): State {
    st.(nextNode := st.nextNode + 1,
        focusedRef := if node.focused then Some(node.ref) else st.focusedRef,
        refs := st.refs[node.el := node.ref],
        nodes := st.nodes + [node])
  }

  function FieldRefs(refs: map<Elem, Ref>, controls: seq<Elem>): seq<Ref> {
    if controls == [] then []
    else if controls[0] in refs then [refs[controls[0]]] + FieldRefs(refs, controls[1..])
    else FieldRefs(refs, controls[1..])
  }

  function WithForms(st: State, forms: seq<FormFacts>): (r: State)
    ensures r.scanned == st.scanned && r.truncated == st.truncated
    decreases |forms|
  {
    if forms == [] then st
    else
      var form := Form(st.nextForm, forms[0].action, FieldRefs(st.refs, forms[0].controls), |st.nodes|);
      WithForms(st.(nextForm := st.nextForm + 1, forms := st.forms + [form]), forms[1..])
  }

  function Walked(dom: Dom, root: RootId, frame: FrameId, st: State): (r: State)
    requires st.scanned <= SCAN_LIMIT
    ensures st.scanned <= r.scanned <= SCAN_LIMIT
    decreases SCAN_LIMIT - st.scanned, 2
  {
    if !dom.root(root).hasStart || st.truncated.Some? then st
    else WithForms(WalkedFrom(dom, root, frame, 0, st), dom.root(root).forms)
  }

  /** The walk of one root's elements from the `i`th on. */
  function WalkedFrom(dom: Dom, root: RootId, frame: FrameId, i: nat, st: State): (r: State)
    requires st.scanned <= SCAN_LIMIT
    ensures st.scanned <= r.scanned <= SCAN_LIMIT
    decreases SCAN_LIMIT - st.scanned, 1
  {
    if i >= |dom.root(root).elements| then st
    else
      var next := Visited(dom, root, frame, dom.root(root).elements[i], st);
      if next.truncated.Some? then next else WalkedFrom(dom, root, frame, i + 1, next)
  }

  /** One element: counted, listed, then what it hosts. */
  function Visited(dom: Dom, root: RootId, frame: FrameId, el: Elem, st: State): (r: State)
    requires st.scanned <= SCAN_LIMIT
    ensures st.scanned <= r.scanned <= SCAN_LIMIT
    ensures r.truncated.None? ==> st.scanned < r.scanned
    decreases SCAN_LIMIT - st.scanned, 0
  {
    var listed := Listed(dom, root, frame, el, st);
    if listed.truncated.Some? then listed else WalkedHosted(dom, el, frame, listed)
  }

  function Listed(dom: Dom, root: RootId, frame: FrameId, el: Elem, st: State): (r: State)
    requires st.scanned <= SCAN_LIMIT
    ensures st.scanned <= r.scanned <= SCAN_LIMIT
    ensures r.truncated.None? ==> st.scanned < r.scanned
    ensures r.truncated.None? && Wanted(dom, el) ==> el in r.refs
  {
    var counted := Counted(st);
    if counted.truncated.None? && Wanted(dom, el) then Emitted(dom, counted, root, frame, el) else counted
  }

  /** The open shadow root, then the frame. */
  function WalkedHosted(dom: Dom, el: Elem, frame: FrameId, st: State): (r: State)
    requires st.scanned <= SCAN_LIMIT
    ensures st.scanned <= r.scanned <= SCAN_LIMIT
    decreases SCAN_LIMIT - st.scanned, 4
  {
    var shadowed := WalkedShadow(dom, el, frame, st);
    if shadowed.truncated.Some? then shadowed else WalkedFrame(dom, el, shadowed)
  }

  function WalkedShadow(dom: Dom, el: Elem, frame: FrameId, st: State): (r: State)
    requires st.scanned <= SCAN_LIMIT
    ensures st.scanned <= r.scanned <= SCAN_LIMIT
    decreases SCAN_LIMIT - st.scanned, 3
  {
    var facts := dom.facts(el);
    if facts.shadowRoot.Some? && facts.hasPath then Walked(dom, facts.shadowRoot.value, frame, st) else st
  }

  function WalkedFrame(dom: Dom, el: Elem, st: State): (r: State)
    requires st.scanned <= SCAN_LIMIT
    ensures st.scanned <= r.scanned <= SCAN_LIMIT
    decreases SCAN_LIMIT - st.scanned, 3
  {
    var facts := dom.facts(el);
    if !facts.isIframe then st
    else
      var framed := WithFrame(dom, st, el);
      if facts.docRoot.Some? then Walked(dom, facts.docRoot.value, framed.iframeIds[el], framed) else framed
  }

  function Observed(dom: Dom): State {
    Walked(dom, dom.main, MainFrame, Started(dom))
  }

  // ---- The walk, step by step ----

  class Walker {
    var nodes: seq<Node>
    var forms: seq<Form>
    var frames: seq<Frame>
    var elementRefs: map<Elem, Ref>
    var iframeIds: map<Elem, FrameId>
    var nextNode: nat
    var nextForm: nat
    var nextFrame: nat
    var scanned: nat
    var truncated: Option<Truncation>
    var focusedRef: Option<Ref>

    function Now(): State
      reads this
    {
      State(nodes, forms, frames, elementRefs, iframeIds, nextNode, nextForm, nextFrame, scanned, truncated, focusedRef)
    }

    constructor (dom: Dom)
      ensures Now() == Started(dom)
    {
      nodes, forms, frames, elementRefs, iframeIds := [], [], [Frame(MainFrame, dom.url)], map[], map[];
      nextNode, nextForm, nextFrame, scanned, truncated, focusedRef := 0, 0, 0, 0, None, None;
    }

    method Truncate(reason: Reason)
      modifies this
      ensures Now() == Truncated(old(Now()), reason)
    {
      if truncated.None? {
        truncated := Some(Truncation(reason, scanned, |nodes|));
      }
    }

    method CountScan() returns (ok: bool)
      modifies this
      ensures Now() == Counted(old(Now())) && ok == (old(scanned) < SCAN_LIMIT)
    {
      if scanned >= SCAN_LIMIT {
        Truncate(ScanLimitExceeded);
        return false;
      }
      scanned := scanned + 1;
      return true;
    }

    method CanEmit() returns (ok: bool)
      modifies this
      ensures ok == (|old(nodes)| < NODE_LIMIT)
      ensures Now() == if ok then old(Now()) else Truncated(old(Now()), NodeLimitExceeded)
    {
      if |nodes| >= NODE_LIMIT {
        Truncate(NodeLimitExceeded);
        return false;
      }
      return true;
    }

    method FrameForIframe(dom: Dom, el: Elem) returns (id: FrameId)
      modifies this
      ensures Now() == WithFrame(dom, old(Now()), el) && id == iframeIds[el]
    {
      if el in iframeIds {
        return iframeIds[el];
      }
      id := Iframe(nextFrame);
      nextFrame := nextFrame + 1;
      iframeIds := iframeIds[el := id];
      frames := frames + [Frame(id, dom.facts(el).url)];
    }

    method EmitNode(dom: Dom, root: RootId, frame: FrameId, el: Elem)
      modifies this
      ensures Now() == Emitted(dom, old(Now()), root, frame, el)
    {
      if el in elementRefs {
        return;
      }
      var ok := CanEmit();
      if !ok {
        return;
      }
      var ref := Obs(nextNode);
      nextNode := nextNode + 1;
      var frameRef := None;
      if dom.facts(el).isIframe {
        var id := FrameForIframe(dom, el);
        frameRef := Some(id);
      }
      var focused := dom.root(root).active == Some(el);
      if focused {
        focusedRef := Some(ref);
      }
      elementRefs := elementRefs[el := ref];
      nodes := nodes + [Node(ref, el, frame, frameRef, focused)];
    }

    method CollectForms(list: seq<FormFacts>)
      modifies this
      ensures Now() == WithForms(old(Now()), list)
    {
      var i := 0;
      assert list[0..] == list;
      while i < |list|
        invariant 0 <= i <= |list|
        invariant WithForms(Now(), list[i..]) == WithForms(old(Now()), list)
      {
        assert list[i..][1..] == list[i + 1..];
        forms := forms + [Form(nextForm, list[i].action, FieldRefs(elementRefs, list[i].controls), |nodes|)];
        nextForm := nextForm + 1;
        i := i + 1;
      }
    }

    method WalkRoot(dom: Dom, root: RootId, frame: FrameId)
      requires scanned <= SCAN_LIMIT
      modifies this
      ensures Now() == Walked(dom, root, frame, old(Now()))
      decreases SCAN_LIMIT - scanned, 1
    {
      if !dom.root(root).hasStart || truncated.Some? {
        return;
      }
      var elements, i := dom.root(root).elements, 0;
      while i < |elements|
        invariant 0 <= i <= |elements|
        invariant old(scanned) <= scanned <= SCAN_LIMIT
        invariant WalkedFrom(dom, root, frame, i, Now()) == WalkedFrom(dom, root, frame, 0, old(Now()))
      {
        Visit(dom, root, frame, elements[i]);
        if truncated.Some? {
          break;
        }
        i := i + 1;
      }
      CollectForms(dom.root(root).forms);
    }

    /** The loop's body. */
    method Visit(dom: Dom, root: RootId, frame: FrameId, el: Elem)
      requires scanned <= SCAN_LIMIT
      modifies this
      ensures Now() == Visited(dom, root, frame, el, old(Now()))
      decreases SCAN_LIMIT - scanned, 0
    {
      var ok := CountScan();
      if !ok || truncated.Some? {
        return;
      }
      if Wanted(dom, el) {
        EmitNode(dom, root, frame, el);
      }
      if truncated.Some? {
        return;
      }
      ghost var listed := Now();
      assert listed == Listed(dom, root, frame, el, old(Now()));
      var facts := dom.facts(el);
      if facts.shadowRoot.Some? && facts.hasPath {
        WalkRoot(dom, facts.shadowRoot.value, frame);
      }
      ghost var shadowed := Now();
      assert shadowed == WalkedShadow(dom, el, frame, listed);
      if truncated.Some? {
        return;
      }
      if facts.isIframe {
        var id := FrameForIframe(dom, el);
        if facts.docRoot.Some? {
          WalkRoot(dom, facts.docRoot.value, id);
        }
      }
      assert Now() == WalkedFrame(dom, el, shadowed);
    }
  }

  method Observe(dom: Dom) returns (st: State)
    ensures st == Observed(dom)
  {
    var walker := new Walker(dom);
    walker.WalkRoot(dom, dom.main, MainFrame);
    st := walker.Now();
  }

  // ---- Every state of the walk ----

  function LastFocused(nodes: seq<Node>): Option<Ref> {
    if nodes == [] then None
    else
      var last := nodes[|nodes| - 1];
      if last.focused then Some(last.ref) else LastFocused(nodes[..|nodes| - 1])
  }

  /** References are the positions of the list, and no element is listed twice. */
  predicate NodesNumbered(nodes: seq<Node>, refs: map<Elem, Ref>, next: nat) {
    next == |nodes| <= NODE_LIMIT
    && (forall k :: 0 <= k < |nodes| ==> nodes[k].ref == Obs(k) && nodes[k].el in refs && refs[nodes[k].el] == Obs(k))
    && (forall el :: el in refs ==> refs[el].n < |nodes| && nodes[refs[el].n].el == el)
  }

  /** Frame identifiers are the positions of the list, one to an element. */
  predicate FramesNumbered(frames: seq<Frame>, ids: map<Elem, FrameId>, next: nat) {
    |frames| == next + 1
    && (forall k :: 0 <= k < |frames| ==> frames[k].id == if k == 0 then MainFrame else Iframe(k - 1))
    && (forall el :: el in ids ==> ids[el].Iframe? && ids[el].n < next)
    && (forall a, b :: a in ids && b in ids && ids[a] == ids[b] ==> a == b)
  }

  predicate FormsClosed(forms: seq<Form>, next: nat, count: nat) {
    next == |forms|
    && (forall k :: 0 <= k < |forms| ==> forms[k].n == k)
    && (forall k :: 0 <= k < |forms| ==> forms[k].known <= count)
    && (forall j, k :: 0 <= j < k < |forms| ==> forms[j].known <= forms[k].known)
    && (forall k, r :: 0 <= k < |forms| && r in forms[k].fieldRefs ==> r.n < forms[k].known)
  }

  /** A truncation record holds the final counts, at the limit it names. */
  predicate TruncationFits(truncated: Option<Truncation>, scanned: nat, count: nat) {
    match truncated
    case None => true
    case Some(t) =>
      t.scanned == scanned && t.emitted == count
      && (if t.reason.ScanLimitExceeded? then scanned == SCAN_LIMIT else count == NODE_LIMIT)
  }

  predicate Inv(st: State) {
    NodesNumbered(st.nodes, st.refs, st.nextNode) && FramesNumbered(st.frames, st.iframeIds, st.nextFrame)
    && FormsClosed(st.forms, st.nextForm, |st.nodes|) && TruncationFits(st.truncated, st.scanned, |st.nodes|)
    && st.focusedRef == LastFocused(st.nodes) && st.scanned <= SCAN_LIMIT
  }

  // ---- Where nodes come from ----

  /** A root, and the frame element whose document it is part of. */
  datatype Place = Place(root: RootId, owner: Option<Elem>)

  predicate Hosts(dom: Dom, el: Elem, owner: Option<Elem>, q: Place) {
    var facts := dom.facts(el);
    (facts.hasPath && facts.shadowRoot == Some(q.root) && q.owner == owner)
    || (facts.isIframe && facts.docRoot == Some(q.root) && q.owner == Some(el))
  }

  predicate Leads(dom: Dom, p: Place, q: Place) {
    exists el :: el in Elements(dom, p.root) && Hosts(dom, el, p.owner, q)
  }

  predicate Chain(dom: Dom, chain: seq<Place>)
    decreases |chain|
  {
    chain != [] && (|chain| > 1 ==> Leads(dom, chain[0], chain[1]) && Chain(dom, chain[1..]))
  }

  lemma {:induction false} ChainGrows(dom: Dom, chain: seq<Place>, next: Place)
    requires Chain(dom, chain) && Leads(dom, chain[|chain| - 1], next)
    ensures Chain(dom, chain + [next])
    decreases |chain|
  {
    if |chain| > 1 {
      ChainGrows(dom, chain[1..], next);
    }
    assert (chain + [next])[1..] == chain[1..] + [next];
  }

  ghost predicate Reaches(dom: Dom, from: Place, to: Place) {
    exists chain :: Chain(dom, chain) && chain[0] == from && chain[|chain| - 1] == to
  }

  ghost predicate Reached(dom: Dom, place: Place) {
    Reaches(dom, Place(dom.main, None), place)
  }

  function FrameOf(ids: map<Elem, FrameId>, owner: Option<Elem>): Option<FrameId> {
    match owner
    case None => Some(MainFrame)
    case Some(el) => if el in ids then Some(ids[el]) else None
  }

  /** A node describes a wanted element where it was found. */
  ghost predicate FoundAt(dom: Dom, ids: map<Elem, FrameId>, node: Node, place: Place) {
    Reached(dom, place) && node.el in Elements(dom, place.root)
    && (dom.facts(node.el).semantic || dom.facts(node.el).pointer)
    && FrameOf(ids, place.owner) == Some(node.frame)
    && node.focused == (dom.root(place.root).active == Some(node.el))
    && (if dom.facts(node.el).isIframe
        then node.el in ids && node.frameRef == Some(ids[node.el])
        else node.frameRef.None?)
  }

  ghost predicate Found(dom: Dom, ids: map<Elem, FrameId>, node: Node) {
    exists place :: FoundAt(dom, ids, node, place)
  }

  ghost predicate Sound(dom: Dom, nodes: seq<Node>, ids: map<Elem, FrameId>) {
    forall k :: 0 <= k < |nodes| ==> Found(dom, ids, nodes[k])
  }

  ghost predicate Missed(dom: Dom, refs: map<Elem, Ref>, place: Place, el: Elem) {
    Reached(dom, place) && el in Elements(dom, place.root) && el !in refs
    && (dom.facts(el).semantic || dom.facts(el).pointer)
  }

  /** The node limit is named only when there was one more to list. */
  ghost predicate LimitIsReal(dom: Dom, truncated: Option<Truncation>, refs: map<Elem, Ref>) {
    truncated.Some? && truncated.value.reason.NodeLimitExceeded? ==> exists place, el :: Missed(dom, refs, place, el)
  }

  /** The frame is that of a frame element the page leads to, under its own URL. */
  ghost predicate FrameShown(dom: Dom, ids: map<Elem, FrameId>, frame: Frame, el: Elem, place: Place) {
    el in ids && ids[el] == frame.id && dom.facts(el).isIframe && frame.url == dom.facts(el).url
    && Reached(dom, place) && el in Elements(dom, place.root)
  }

  ghost predicate IsShown(dom: Dom, ids: map<Elem, FrameId>, frame: Frame) {
    exists el, place :: FrameShown(dom, ids, frame, el, place)
  }

  /** The main frame under the page's URL, and then those of frame elements. */
  ghost predicate FramesShown(dom: Dom, frames: seq<Frame>, ids: map<Elem, FrameId>) {
    frames != [] && frames[0] == Frame(MainFrame, dom.url)
    && forall k :: 0 < k < |frames| ==> IsShown(dom, ids, frames[k])
  }

  ghost predicate Good(dom: Dom, st: State) {
    Inv(st) && Sound(dom, st.nodes, st.iframeIds) && LimitIsReal(dom, st.truncated, st.refs)
    && FramesShown(dom, st.frames, st.iframeIds)
  }

  predicate Extends<V(==)>(a: map<Elem, V>, b: map<Elem, V>) {
    forall el :: el in a ==> el in b && b[el] == a[el]
  }

  predicate Grows(a: State, b: State) {
    a.nodes <= b.nodes && a.forms <= b.forms && a.frames <= b.frames
    && Extends(a.refs, b.refs) && Extends(a.iframeIds, b.iframeIds)
  }

  // ---- What each step keeps ----

  lemma CountsAside(st: State, scanned: nat, truncated: Option<Truncation>)
    requires Inv(st) && scanned <= SCAN_LIMIT && TruncationFits(truncated, scanned, |st.nodes|)
    ensures var next := st.(scanned := scanned, truncated := truncated); Inv(next) && Grows(st, next)
  {
  }

  lemma CountedKeeps(st: State)
    requires Inv(st) && st.truncated.None?
    ensures Inv(Counted(st)) && Grows(st, Counted(st))
  {
    if st.scanned >= SCAN_LIMIT {
      CountsAside(st, st.scanned, Some(Truncation(ScanLimitExceeded, st.scanned, |st.nodes|)));
    } else {
      CountsAside(st, st.scanned + 1, None);
    }
  }

  lemma OneMoreFrame(frames: seq<Frame>, ids: map<Elem, FrameId>, next: nat, el: Elem, url: string)
    requires FramesNumbered(frames, ids, next) && el !in ids
    ensures FramesNumbered(frames + [Frame(Iframe(next), url)], ids[el := Iframe(next)], next + 1)
  {
  }

  lemma WithFrameKeeps(dom: Dom, st: State, el: Elem)
    requires Inv(st)
    ensures Inv(WithFrame(dom, st, el)) && Grows(st, WithFrame(dom, st, el))
  {
    if el !in st.iframeIds {
      OneMoreFrame(st.frames, st.iframeIds, st.nextFrame, el, dom.facts(el).url);
    }
  }

  lemma OneMoreNode(nodes: seq<Node>, refs: map<Elem, Ref>, next: nat, node: Node)
    requires NodesNumbered(nodes, refs, next) && next < NODE_LIMIT && node.el !in refs && node.ref == Obs(next)
    ensures NodesNumbered(nodes + [node], refs[node.el := node.ref], next + 1)
  {
  }

  lemma LastFocusedGrows(nodes: seq<Node>, node: Node)
    ensures LastFocused(nodes + [node]) == if node.focused then Some(node.ref) else LastFocused(nodes)
  {
    assert (nodes + [node])[..|nodes|] == nodes;
  }

  lemma MoreNodesKeepForms(forms: seq<Form>, next: nat, count: nat)
    requires FormsClosed(forms, next, count)
    ensures FormsClosed(forms, next, count + 1)
  {
  }

  lemma WithNodeKeeps(st: State, node: Node)
    requires Inv(st) && st.truncated.None? && |st.nodes| < NODE_LIMIT
    requires node.el !in st.refs && node.ref == Obs(st.nextNode)
    ensures Inv(WithNode(st, node)) && Grows(st, WithNode(st, node))
  {
    OneMoreNode(st.nodes, st.refs, st.nextNode, node);
    LastFocusedGrows(st.nodes, node);
    MoreNodesKeepForms(st.forms, st.nextForm, |st.nodes|);
  }

  lemma {:induction false} FieldRefsAreListed(refs: map<Elem, Ref>, controls: seq<Elem>, bound: nat)
    requires forall el :: el in refs ==> refs[el].n < bound
    ensures forall r :: r in FieldRefs(refs, controls) ==> r.n < bound
  {
    if controls != [] {
      FieldRefsAreListed(refs, controls[1..], bound);
    }
  }

  /** A root's forms get one record each, in their order, all of one moment. */
  lemma {:induction false} OneRecordPerForm(st: State, forms: seq<FormFacts>)
    ensures var after := WithForms(st, forms);
            && after == st.(forms := after.forms, nextForm := st.nextForm + |forms|)
            && |after.forms| == |st.forms| + |forms| && st.forms <= after.forms
            && forall i :: 0 <= i < |forms| ==>
                 after.forms[|st.forms| + i]
                 == Form(st.nextForm + i, forms[i].action, FieldRefs(st.refs, forms[i].controls), |st.nodes|)
    decreases |forms|
  {
    if forms != [] {
      var form := Form(st.nextForm, forms[0].action, FieldRefs(st.refs, forms[0].controls), |st.nodes|);
      OneRecordPerForm(st.(nextForm := st.nextForm + 1, forms := st.forms + [form]), forms[1..]);
      assert forall i :: 1 <= i < |forms| ==> forms[1..][i - 1] == forms[i];
    }
  }

  lemma RecordsAreClosed(st: State, forms: seq<FormFacts>, after: State)
    requires Inv(st) && after == WithForms(st, forms)
    ensures FormsClosed(after.forms, after.nextForm, |after.nodes|)
  {
    OneRecordPerForm(st, forms);
    forall k | |st.forms| <= k < |after.forms|
      ensures after.forms[k].known == |st.nodes| && after.forms[k].n == k
      ensures forall r :: r in after.forms[k].fieldRefs ==> r.n < |st.nodes|
    {
      var i := k - |st.forms|;
      assert after.forms[|st.forms| + i].action == forms[i].action;
      FieldRefsAreListed(st.refs, forms[i].controls, |st.nodes|);
    }
  }

  lemma WithFormsKeeps(st: State, forms: seq<FormFacts>)
    requires Inv(st)
    ensures Inv(WithForms(st, forms)) && Grows(st, WithForms(st, forms))
    ensures WithForms(st, forms).nodes == st.nodes && WithForms(st, forms).refs == st.refs
    ensures WithForms(st, forms).iframeIds == st.iframeIds && WithForms(st, forms).frames == st.frames
  {
    OneRecordPerForm(st, forms);
    RecordsAreClosed(st, forms, WithForms(st, forms));
  }

  lemma FoundStill(dom: Dom, ids: map<Elem, FrameId>, more: map<Elem, FrameId>, node: Node)
    requires Found(dom, ids, node) && Extends(ids, more)
    ensures Found(dom, more, node)
  {
    var place :| FoundAt(dom, ids, node, place);
    assert FoundAt(dom, more, node, place);
  }

  lemma SoundGrows(dom: Dom, nodes: seq<Node>, ids: map<Elem, FrameId>, more: map<Elem, FrameId>)
    requires Sound(dom, nodes, ids) && Extends(ids, more)
    ensures Sound(dom, nodes, more)
  {
    forall k | 0 <= k < |nodes| ensures Found(dom, more, nodes[k]) {
      FoundStill(dom, ids, more, nodes[k]);
    }
  }

  lemma SoundOneMore(dom: Dom, nodes: seq<Node>, ids: map<Elem, FrameId>, node: Node)
    requires Sound(dom, nodes, ids) && Found(dom, ids, node)
    ensures Sound(dom, nodes + [node], ids)
  {
  }

  /** What is known of the place a walk is in. */
  ghost predicate In(dom: Dom, place: Place, frame: FrameId, ids: map<Elem, FrameId>) {
    Reached(dom, place) && FrameOf(ids, place.owner) == Some(frame)
  }

  lemma InStill(dom: Dom, place: Place, frame: FrameId, ids: map<Elem, FrameId>, more: map<Elem, FrameId>)
    requires In(dom, place, frame, ids) && Extends(ids, more)
    ensures In(dom, place, frame, more)
  {
  }

  lemma ShownStill(dom: Dom, ids: map<Elem, FrameId>, more: map<Elem, FrameId>, frame: Frame)
    requires IsShown(dom, ids, frame) && Extends(ids, more)
    ensures IsShown(dom, more, frame)
  {
    var el, place :| FrameShown(dom, ids, frame, el, place);
    assert FrameShown(dom, more, frame, el, place);
  }

  lemma OneMoreShown(dom: Dom, frames: seq<Frame>, ids: map<Elem, FrameId>, more: map<Elem, FrameId>, frame: Frame)
    requires FramesShown(dom, frames, ids) && Extends(ids, more) && IsShown(dom, more, frame)
    ensures FramesShown(dom, frames + [frame], more)
  {
    forall k | 0 < k < |frames| ensures IsShown(dom, more, frames[k]) {
      ShownStill(dom, ids, more, frames[k]);
    }
  }

  lemma FrameKeepsGood(dom: Dom, st: State, place: Place, el: Elem)
    requires Good(dom, st) && Reached(dom, place) && el in Elements(dom, place.root) && dom.facts(el).isIframe
    ensures Good(dom, WithFrame(dom, st, el)) && Grows(st, WithFrame(dom, st, el))
  {
    var framed := WithFrame(dom, st, el);
    WithFrameKeeps(dom, st, el);
    SoundGrows(dom, st.nodes, st.iframeIds, framed.iframeIds);
    if el !in st.iframeIds {
      var frame := Frame(Iframe(st.nextFrame), dom.facts(el).url);
      assert FrameShown(dom, framed.iframeIds, frame, el, place);
      OneMoreShown(dom, st.frames, st.iframeIds, framed.iframeIds, frame);
    }
  }

  /** An element listed where it is. */
  lemma ListedKeeps(dom: Dom, st: State, place: Place, node: Node)
    requires Good(dom, st) && st.truncated.None? && |st.nodes| < NODE_LIMIT
    requires node.el !in st.refs && node.ref == Obs(st.nextNode) && FoundAt(dom, st.iframeIds, node, place)
    ensures Good(dom, WithNode(st, node)) && Grows(st, WithNode(st, node))
  {
    WithNodeKeeps(st, node);
    SoundOneMore(dom, st.nodes, st.iframeIds, node);
  }

  lemma LimitKeeps(dom: Dom, st: State, place: Place, el: Elem)
    requires Good(dom, st) && st.truncated.None? && |st.nodes| >= NODE_LIMIT && Missed(dom, st.refs, place, el)
    ensures Good(dom, Truncated(st, NodeLimitExceeded)) && Grows(st, Truncated(st, NodeLimitExceeded))
  {
  }

  lemma GrowsOn(a: State, b: State, c: State)
    requires Grows(a, b) && Grows(b, c)
    ensures Grows(a, c)
  {
  }

  lemma NewNodeKeeps(dom: Dom, st: State, framed: State, place: Place, frame: FrameId, node: Node)
    requires Good(dom, st) && st.truncated.None? && In(dom, place, frame, st.iframeIds)
    requires node.el in Elements(dom, place.root) && Wanted(dom, node.el)
    requires node.el !in st.refs && |st.nodes| < NODE_LIMIT
    requires framed == if dom.facts(node.el).isIframe then WithFrame(dom, st, node.el) else st
    requires node == Node(Obs(st.nextNode), node.el, frame,
                          if dom.facts(node.el).isIframe then Some(framed.iframeIds[node.el]) else None,
                          dom.root(place.root).active == Some(node.el))
    ensures Good(dom, WithNode(framed, node)) && Grows(st, WithNode(framed, node))
  {
    if dom.facts(node.el).isIframe {
      FrameKeepsGood(dom, st, place, node.el);
    }
    InStill(dom, place, frame, st.iframeIds, framed.iframeIds);
    ListedKeeps(dom, framed, place, node);
    GrowsOn(st, framed, WithNode(framed, node));
  }

  lemma EmittedKeeps(dom: Dom, st: State, place: Place, frame: FrameId, el: Elem)
    requires Good(dom, st) && st.truncated.None? && In(dom, place, frame, st.iframeIds)
    requires el in Elements(dom, place.root) && Wanted(dom, el)
    ensures Good(dom, Emitted(dom, st, place.root, frame, el)) && Grows(st, Emitted(dom, st, place.root, frame, el))
  {
    if el in st.refs {
    } else if |st.nodes| >= NODE_LIMIT {
      LimitKeeps(dom, st, place, el);
    } else {
      var framed := if dom.facts(el).isIframe then WithFrame(dom, st, el) else st;
      var frameRef := if dom.facts(el).isIframe then Some(framed.iframeIds[el]) else None;
      NewNodeKeeps(dom, st, framed, place, frame,
                   Node(Obs(st.nextNode), el, frame, frameRef, dom.root(place.root).active == Some(el)));
    }
  }

  lemma FormsKeepGood(dom: Dom, st: State, forms: seq<FormFacts>)
    requires Good(dom, st)
    ensures Good(dom, WithForms(st, forms)) && Grows(st, WithForms(st, forms))
  {
    WithFormsKeeps(st, forms);
  }

  lemma ReachedNext(dom: Dom, place: Place, el: Elem, next: Place)
    requires Reached(dom, place) && el in Elements(dom, place.root) && Hosts(dom, el, place.owner, next)
    ensures Reached(dom, next)
  {
    var start := Place(dom.main, None);
    var chain: seq<Place> :| Chain(dom, chain) && chain[0] == start && chain[|chain| - 1] == place;
    ChainGrows(dom, chain, next);
    var longer := chain + [next];
    assert longer[0] == start && longer[|longer| - 1] == next;
  }

  /** What a part of the walk that began at `st` leaves. */
  ghost function Kept(dom: Dom, st: State): State -> bool {
    (s: State) => Good(dom, s) && Grows(st, s)
  }

  // The four parts of the walk, each keeping `Good`.

  lemma {:induction false} WalkedKeeps(dom: Dom, place: Place, frame: FrameId, st: State)
    requires Good(dom, st) && In(dom, place, frame, st.iframeIds)
    ensures Good(dom, Walked(dom, place.root, frame, st)) && Grows(st, Walked(dom, place.root, frame, st))
    decreases SCAN_LIMIT - st.scanned, 2
  {
    if dom.root(place.root).hasStart && st.truncated.None? {
      var walked := WalkedFrom(dom, place.root, frame, 0, st);
      WalkedFromKeeps(dom, place, frame, 0, st);
      FormsKeepGood(dom, walked, dom.root(place.root).forms);
      GrowsOn(st, walked, Walked(dom, place.root, frame, st));
    }
  }

  lemma {:induction false} WalkedFromKeeps(dom: Dom, place: Place, frame: FrameId, i: nat, st: State)
    requires Good(dom, st) && In(dom, place, frame, st.iframeIds)
    requires dom.root(place.root).hasStart && st.truncated.None?
    ensures Kept(dom, st)(WalkedFrom(dom, place.root, frame, i, st))
    decreases SCAN_LIMIT - st.scanned, 1, 1
  {
    if i < |dom.root(place.root).elements| {
      var el := dom.root(place.root).elements[i];
      var next := Visited(dom, place.root, frame, el, st);
      VisitedKeeps(dom, place, frame, el, st);
      if next.truncated.None? {
        InStill(dom, place, frame, st.iframeIds, next.iframeIds);
        RestKeeps(dom, place, frame, i + 1, st, next);
      }
      WalkedOn(dom, place.root, frame, i, st, next, Kept(dom, st));
    }
  }

  /** The walk from the `i`th element on is the rest of the walk after that element. */
  lemma WalkedOn(dom: Dom, root: RootId, frame: FrameId, i: nat, st: State, next: State, holds: State -> bool)
    requires st.scanned <= SCAN_LIMIT && i < |dom.root(root).elements|
    requires next == Visited(dom, root, frame, dom.root(root).elements[i], st)
    requires holds(if next.truncated.Some? then next else WalkedFrom(dom, root, frame, i + 1, next))
    ensures holds(WalkedFrom(dom, root, frame, i, st))
  {
  }

  lemma {:induction false} RestKeeps(dom: Dom, place: Place, frame: FrameId, i: nat, st: State, next: State)
    requires st.scanned < next.scanned <= SCAN_LIMIT
    requires Good(dom, next) && In(dom, place, frame, next.iframeIds) && Grows(st, next)
    requires dom.root(place.root).hasStart && next.truncated.None?
    ensures Kept(dom, st)(WalkedFrom(dom, place.root, frame, i, next))
    decreases SCAN_LIMIT - next.scanned, 1, 2
  {
    WalkedFromKeeps(dom, place, frame, i, next);
    GrowsOn(st, next, WalkedFrom(dom, place.root, frame, i, next));
  }

  lemma {:induction false} VisitedKeeps(dom: Dom, place: Place, frame: FrameId, el: Elem, st: State)
    requires Good(dom, st) && In(dom, place, frame, st.iframeIds)
    requires el in Elements(dom, place.root) && st.truncated.None?
    ensures Good(dom, Visited(dom, place.root, frame, el, st)) && Grows(st, Visited(dom, place.root, frame, el, st))
    decreases SCAN_LIMIT - st.scanned, 0
  {
    ListedGood(dom, place, frame, el, st);
    var listed := Listed(dom, place.root, frame, el, st);
    if listed.truncated.None? {
      InStill(dom, place, frame, st.iframeIds, listed.iframeIds);
      HostedKeeps(dom, place, frame, el, listed);
      GrowsOn(st, listed, WalkedHosted(dom, el, frame, listed));
    }
  }

  lemma ListedGood(dom: Dom, place: Place, frame: FrameId, el: Elem, st: State)
    requires Good(dom, st) && In(dom, place, frame, st.iframeIds)
    requires el in Elements(dom, place.root) && st.truncated.None?
    ensures Good(dom, Listed(dom, place.root, frame, el, st)) && Grows(st, Listed(dom, place.root, frame, el, st))
  {
    var counted := Counted(st);
    CountedKeepsGood(dom, st);
    if counted.truncated.None? && Wanted(dom, el) {
      EmittedKeeps(dom, counted, place, frame, el);
      GrowsOn(st, counted, Emitted(dom, counted, place.root, frame, el));
    }
  }

  lemma {:induction false} HostedKeeps(dom: Dom, place: Place, frame: FrameId, el: Elem, st: State)
    requires Good(dom, st) && In(dom, place, frame, st.iframeIds) && el in Elements(dom, place.root)
    ensures Good(dom, WalkedHosted(dom, el, frame, st)) && Grows(st, WalkedHosted(dom, el, frame, st))
    decreases SCAN_LIMIT - st.scanned, 4
  {
    ShadowKeeps(dom, place, frame, el, st);
    var shadowed := WalkedShadow(dom, el, frame, st);
    if shadowed.truncated.None? {
      FrameKeeps(dom, place, el, shadowed);
      GrowsOn(st, shadowed, WalkedFrame(dom, el, shadowed));
    }
  }

  lemma CountedKeepsGood(dom: Dom, st: State)
    requires Good(dom, st) && st.truncated.None?
    ensures Good(dom, Counted(st)) && Grows(st, Counted(st))
  {
    CountedKeeps(st);
  }

  lemma {:induction false} ShadowKeeps(dom: Dom, place: Place, frame: FrameId, el: Elem, st: State)
    requires Good(dom, st) && In(dom, place, frame, st.iframeIds) && el in Elements(dom, place.root)
    ensures Good(dom, WalkedShadow(dom, el, frame, st)) && Grows(st, WalkedShadow(dom, el, frame, st))
    decreases SCAN_LIMIT - st.scanned, 3
  {
    var facts := dom.facts(el);
    if facts.shadowRoot.Some? && facts.hasPath {
      var next := Place(facts.shadowRoot.value, place.owner);
      ReachedNext(dom, place, el, next);
      WalkedKeeps(dom, next, frame, st);
    }
  }

  lemma {:induction false} FrameKeeps(dom: Dom, place: Place, el: Elem, st: State)
    requires Good(dom, st) && Reached(dom, place) && el in Elements(dom, place.root)
    ensures Good(dom, WalkedFrame(dom, el, st)) && Grows(st, WalkedFrame(dom, el, st))
    decreases SCAN_LIMIT - st.scanned, 3
  {
    var facts := dom.facts(el);
    if facts.isIframe {
      FrameKeepsGood(dom, st, place, el);
      var framed := WithFrame(dom, st, el);
      if facts.docRoot.Some? {
        var next := Place(facts.docRoot.value, Some(el));
        ReachedNext(dom, place, el, next);
        WalkedKeeps(dom, next, framed.iframeIds[el], framed);
        GrowsOn(st, framed, WalkedFrame(dom, el, st));
      }
    }
  }

  // ---- Nothing is left out of an observation that was not cut short ----

  /** The references of the first `known` nodes. */
  function Before(refs: map<Elem, Ref>, known: nat): map<Elem, Ref> {
    map el | el in refs && refs[el].n < known :: refs[el]
  }

  /** A record lists exactly the controls that were nodes when the form was read,
      in their order, and by then all nodes among the root's own elements were. */
  ghost predicate Records(form: FormFacts, elements: seq<Elem>, refs: map<Elem, Ref>, record: Form) {
    record.action == form.action
    && record.fieldRefs == FieldRefs(Before(refs, record.known), form.controls)
    && forall el :: el in elements && el in refs ==> refs[el].n < record.known
  }

  ghost predicate FormDone(form: FormFacts, elements: seq<Elem>, st: State) {
    exists k :: 0 <= k < |st.forms| && Records(form, elements, st.refs, st.forms[k])
  }

  predicate AllListed(dom: Dom, elements: seq<Elem>, refs: map<Elem, Ref>) {
    forall el :: el in elements && (dom.facts(el).semantic || dom.facts(el).pointer) ==> el in refs
  }

  predicate AllFramed(dom: Dom, elements: seq<Elem>, ids: map<Elem, FrameId>) {
    forall el :: el in elements && dom.facts(el).isIframe ==> el in ids
  }

  /** Every wanted element is listed, every frame element has its frame, and every form its record. */
  ghost predicate RootDone(dom: Dom, root: RootId, st: State) {
    var r := dom.root(root);
    r.hasStart ==>
      AllListed(dom, r.elements, st.refs) && AllFramed(dom, r.elements, st.iframeIds)
      && forall form :: form in r.forms ==> FormDone(form, r.elements, st)
  }

  ghost predicate Complete(dom: Dom, place: Place, st: State) {
    forall chain: seq<Place> :: Chain(dom, chain) && chain[0] == place ==> RootDone(dom, chain[|chain| - 1].root, st)
  }

  /** Everything an element hosts is done. */
  ghost predicate HostedDone(dom: Dom, el: Elem, owner: Option<Elem>, st: State) {
    (dom.facts(el).isIframe ==> el in st.iframeIds)
    && forall next :: Hosts(dom, el, owner, next) ==> Complete(dom, next, st)
  }

  ghost predicate RestDone(dom: Dom, place: Place, i: nat, st: State) {
    forall j :: i <= j < |dom.root(place.root).elements| ==>
      var el := dom.root(place.root).elements[j];
      (Wanted(dom, el) ==> el in st.refs) && HostedDone(dom, el, place.owner, st)
  }

  lemma {:induction false} SameFields(refs: map<Elem, Ref>, more: map<Elem, Ref>, controls: seq<Elem>)
    requires Extends(refs, more) && forall el :: el in controls && el in more ==> el in refs
    ensures FieldRefs(refs, controls) == FieldRefs(more, controls)
  {
    if controls != [] {
      assert controls[0] in controls && forall el :: el in controls[1..] ==> el in controls;
      SameFields(refs, more, controls[1..]);
    }
  }

  lemma OnlyWantedIsListed(dom: Dom, st: State, el: Elem)
    requires Good(dom, st) && el in st.refs
    ensures Wanted(dom, el)
  {
    assert Found(dom, st.iframeIds, st.nodes[st.refs[el].n]);
  }

  lemma AllKnown(st: State)
    requires Inv(st)
    ensures Before(st.refs, |st.nodes|) == st.refs
  {
  }

  /** Later nodes have later references. */
  lemma BeforeStays(a: State, b: State, known: nat)
    requires Inv(a) && Inv(b) && Grows(a, b) && known <= |a.nodes|
    ensures Before(b.refs, known) == Before(a.refs, known)
  {
    forall el | el in b.refs && b.refs[el].n < known ensures el in a.refs {
      assert a.nodes[b.refs[el].n] == b.nodes[b.refs[el].n];
    }
  }

  lemma StillRecords(form: FormFacts, elements: seq<Elem>, a: State, b: State, record: Form)
    requires Records(form, elements, a.refs, record) && Extends(a.refs, b.refs)
    requires Before(b.refs, record.known) == Before(a.refs, record.known)
    requires forall el :: el in elements && el in b.refs ==> el in a.refs
    ensures Records(form, elements, b.refs, record)
  {
  }

  lemma RootStillDone(dom: Dom, root: RootId, a: State, b: State)
    requires RootDone(dom, root, a) && Grows(a, b) && Good(dom, a) && Good(dom, b)
    ensures RootDone(dom, root, b)
  {
    var r := dom.root(root);
    if r.hasStart {
      forall el | el in r.elements && el in b.refs ensures el in a.refs {
        OnlyWantedIsListed(dom, b, el);
      }
      forall form | form in r.forms ensures FormDone(form, r.elements, b) {
        FormStillDone(form, r.elements, a, b);
      }
    }
  }

  lemma FormStillDone(form: FormFacts, elements: seq<Elem>, a: State, b: State)
    requires FormDone(form, elements, a) && Grows(a, b) && Inv(a) && Inv(b)
    requires forall el :: el in elements && el in b.refs ==> el in a.refs
    ensures FormDone(form, elements, b)
  {
    var k :| 0 <= k < |a.forms| && Records(form, elements, a.refs, a.forms[k]);
    BeforeStays(a, b, a.forms[k].known);
    StillRecords(form, elements, a, b, a.forms[k]);
    assert b.forms[k] == a.forms[k];
  }

  lemma StillComplete(dom: Dom, place: Place, a: State, b: State)
    requires Complete(dom, place, a) && Grows(a, b) && Good(dom, a) && Good(dom, b)
    ensures Complete(dom, place, b)
  {
    forall chain: seq<Place> | Chain(dom, chain) && chain[0] == place
      ensures RootDone(dom, chain[|chain| - 1].root, b)
    {
      RootStillDone(dom, chain[|chain| - 1].root, a, b);
    }
  }

  lemma HostedStillDone(dom: Dom, el: Elem, owner: Option<Elem>, a: State, b: State)
    requires HostedDone(dom, el, owner, a) && Grows(a, b) && Good(dom, a) && Good(dom, b)
    ensures HostedDone(dom, el, owner, b)
  {
    forall next | Hosts(dom, el, owner, next) ensures Complete(dom, next, b) {
      StillComplete(dom, next, a, b);
    }
  }

  /** A root is complete once it is done and so is all that its elements host. */
  lemma CompleteFromRest(dom: Dom, place: Place, st: State)
    requires RootDone(dom, place.root, st)
    requires dom.root(place.root).hasStart ==> RestDone(dom, place, 0, st)
    ensures Complete(dom, place, st)
  {
    forall chain: seq<Place> | Chain(dom, chain) && chain[0] == place
      ensures RootDone(dom, chain[|chain| - 1].root, st)
    {
      if |chain| > 1 {
        var rest := chain[1..];
        assert Leads(dom, chain[0], chain[1]) && rest[0] == chain[1] && rest[|rest| - 1] == chain[|chain| - 1];
        var el :| el in Elements(dom, place.root) && Hosts(dom, el, place.owner, chain[1]);
        assert HostedDone(dom, el, place.owner, st);
      }
    }
  }

  lemma FormsAreDone(st: State, forms: seq<FormFacts>, form: FormFacts, elements: seq<Elem>)
    requires Inv(st) && form in forms
    ensures FormDone(form, elements, WithForms(st, forms))
  {
    var i :| 0 <= i < |forms| && forms[i] == form;
    var after := WithForms(st, forms);
    OneRecordPerForm(st, forms);
    AllKnown(st);
    assert Records(form, elements, after.refs, after.forms[|st.forms| + i]);
  }

  /** With its forms read, a root whose elements are done is complete. */
  lemma FormsFinish(dom: Dom, place: Place, walked: State, end: State)
    requires Good(dom, walked) && dom.root(place.root).hasStart && RestDone(dom, place, 0, walked)
    requires end == WithForms(walked, dom.root(place.root).forms)
    ensures Complete(dom, place, end)
  {
    var forms := dom.root(place.root).forms;
    FormsKeepGood(dom, walked, forms);
    WithFormsKeeps(walked, forms);
    RestStillDone(dom, place, 0, walked, end);
    forall form | form in forms ensures FormDone(form, dom.root(place.root).elements, end) {
      FormsAreDone(walked, forms, form, dom.root(place.root).elements);
    }
    CompleteFromRest(dom, place, end);
  }

  // The parts of the walk again, each complete when it ends without truncation.

  lemma {:induction false} WalkedCompletes(dom: Dom, place: Place, frame: FrameId, st: State)
    requires Good(dom, st) && In(dom, place, frame, st.iframeIds)
    requires st.truncated.None? && Walked(dom, place.root, frame, st).truncated.None?
    ensures var end := Walked(dom, place.root, frame, st); Complete(dom, place, end)
    decreases SCAN_LIMIT - st.scanned, 2
  {
    var end := Walked(dom, place.root, frame, st);
    if dom.root(place.root).hasStart {
      var walked := WalkedFrom(dom, place.root, frame, 0, st);
      WalkedFromKeeps(dom, place, frame, 0, st);
      WalkedFromCompletes(dom, place, frame, 0, st);
      FormsFinish(dom, place, walked, end);
    } else {
      CompleteFromRest(dom, place, end);
    }
  }

  lemma RestStillDone(dom: Dom, place: Place, i: nat, a: State, b: State)
    requires RestDone(dom, place, i, a) && Grows(a, b) && Good(dom, a) && Good(dom, b)
    ensures RestDone(dom, place, i, b)
  {
    forall j | i <= j < |dom.root(place.root).elements|
      ensures HostedDone(dom, dom.root(place.root).elements[j], place.owner, b)
    {
      HostedStillDone(dom, dom.root(place.root).elements[j], place.owner, a, b);
    }
  }

  lemma RestExtends(dom: Dom, place: Place, i: nat, a: State, b: State)
    requires i < |dom.root(place.root).elements| && Grows(a, b) && Good(dom, a) && Good(dom, b)
    requires var el := dom.root(place.root).elements[i];
             (Wanted(dom, el) ==> el in a.refs) && HostedDone(dom, el, place.owner, a)
    requires RestDone(dom, place, i + 1, b)
    ensures RestDone(dom, place, i, b)
  {
    HostedStillDone(dom, dom.root(place.root).elements[i], place.owner, a, b);
  }

  lemma {:induction false} WalkedFromCompletes(dom: Dom, place: Place, frame: FrameId, i: nat, st: State)
    requires Good(dom, st) && In(dom, place, frame, st.iframeIds)
    requires dom.root(place.root).hasStart && st.truncated.None?
    requires WalkedFrom(dom, place.root, frame, i, st).truncated.None?
    ensures var end := WalkedFrom(dom, place.root, frame, i, st); RestDone(dom, place, i, end)
    decreases SCAN_LIMIT - st.scanned, 1
  {
    if i < |dom.root(place.root).elements| {
      var el := dom.root(place.root).elements[i];
      var next := Visited(dom, place.root, frame, el, st);
      VisitedKeeps(dom, place, frame, el, st);
      VisitedLists(dom, place, frame, el, st);
      VisitedCompletes(dom, place, frame, el, st);
      InStill(dom, place, frame, st.iframeIds, next.iframeIds);
      WalkedFromKeeps(dom, place, frame, i + 1, next);
      WalkedFromCompletes(dom, place, frame, i + 1, next);
      RestExtends(dom, place, i, next, WalkedFrom(dom, place.root, frame, i + 1, next));
    }
  }

  lemma ListedStill(a: State, b: State, el: Elem)
    requires el in a.refs && Grows(a, b)
    ensures el in b.refs
  {
  }

  lemma VisitedLists(dom: Dom, place: Place, frame: FrameId, el: Elem, st: State)
    requires Good(dom, st) && In(dom, place, frame, st.iframeIds)
    requires el in Elements(dom, place.root) && st.truncated.None?
    requires Visited(dom, place.root, frame, el, st).truncated.None?
    ensures Wanted(dom, el) ==> el in Visited(dom, place.root, frame, el, st).refs
  {
    var listed := Listed(dom, place.root, frame, el, st);
    if Wanted(dom, el) {
      ListedGood(dom, place, frame, el, st);
      InStill(dom, place, frame, st.iframeIds, listed.iframeIds);
      HostedKeeps(dom, place, frame, el, listed);
      ListedStill(listed, WalkedHosted(dom, el, frame, listed), el);
    }
  }

  lemma {:induction false} VisitedCompletes(dom: Dom, place: Place, frame: FrameId, el: Elem, st: State)
    requires Good(dom, st) && In(dom, place, frame, st.iframeIds)
    requires el in Elements(dom, place.root) && st.truncated.None?
    requires Visited(dom, place.root, frame, el, st).truncated.None?
    ensures var end := Visited(dom, place.root, frame, el, st); HostedDone(dom, el, place.owner, end)
    decreases SCAN_LIMIT - st.scanned, 0
  {
    var listed := Listed(dom, place.root, frame, el, st);
    ListedGood(dom, place, frame, el, st);
    InStill(dom, place, frame, st.iframeIds, listed.iframeIds);
    HostedCompletes(dom, place, frame, el, listed);
  }

  lemma {:induction false} ShadowCompletes(
    dom: Dom, place: Place, frame: FrameId, el: Elem, st: State, end: State, next: Place)
    requires Good(dom, st) && In(dom, place, frame, st.iframeIds) && el in Elements(dom, place.root)
    requires st.truncated.None? && WalkedShadow(dom, el, frame, st).truncated.None?
    requires dom.facts(el).hasPath && dom.facts(el).shadowRoot == Some(next.root) && next.owner == place.owner
    requires Good(dom, end) && Grows(WalkedShadow(dom, el, frame, st), end)
    ensures Complete(dom, next, end)
    decreases SCAN_LIMIT - st.scanned, 3
  {
    ReachedNext(dom, place, el, next);
    WalkedKeeps(dom, next, frame, st);
    WalkedCompletes(dom, next, frame, st);
    StillComplete(dom, next, WalkedShadow(dom, el, frame, st), end);
  }

  lemma {:induction false} FrameCompletes(dom: Dom, place: Place, el: Elem, st: State, next: Place)
    requires Good(dom, st) && Reached(dom, place) && el in Elements(dom, place.root)
    requires st.truncated.None? && WalkedFrame(dom, el, st).truncated.None?
    requires dom.facts(el).isIframe && dom.facts(el).docRoot == Some(next.root) && next.owner == Some(el)
    ensures Complete(dom, next, WalkedFrame(dom, el, st))
    decreases SCAN_LIMIT - st.scanned, 3
  {
    var framed := WithFrame(dom, st, el);
    ReachedNext(dom, place, el, next);
    FrameKeepsGood(dom, st, place, el);
    WalkedCompletes(dom, next, framed.iframeIds[el], framed);
  }

  lemma FrameElementIsFramed(dom: Dom, el: Elem, place: Place, st: State)
    requires Good(dom, st) && Reached(dom, place) && el in Elements(dom, place.root) && dom.facts(el).isIframe
    ensures el in WalkedFrame(dom, el, st).iframeIds
  {
    if dom.facts(el).docRoot.Some? {
      var framed, next := WithFrame(dom, st, el), Place(dom.facts(el).docRoot.value, Some(el));
      ReachedNext(dom, place, el, next);
      FrameKeepsGood(dom, st, place, el);
      WalkedKeeps(dom, next, framed.iframeIds[el], framed);
    }
  }

  lemma {:induction false} HostedCompletes(dom: Dom, place: Place, frame: FrameId, el: Elem, st: State)
    requires Good(dom, st) && In(dom, place, frame, st.iframeIds) && el in Elements(dom, place.root)
    requires st.truncated.None? && WalkedHosted(dom, el, frame, st).truncated.None?
    ensures HostedDone(dom, el, place.owner, WalkedHosted(dom, el, frame, st))
    decreases SCAN_LIMIT - st.scanned, 4
  {
    var shadowed, end := WalkedShadow(dom, el, frame, st), WalkedHosted(dom, el, frame, st);
    ShadowKeeps(dom, place, frame, el, st);
    FrameKeeps(dom, place, el, shadowed);
    if dom.facts(el).isIframe {
      FrameElementIsFramed(dom, el, place, shadowed);
    }
    forall next | Hosts(dom, el, place.owner, next) ensures Complete(dom, next, end) {
      if dom.facts(el).hasPath && dom.facts(el).shadowRoot == Some(next.root) && next.owner == place.owner {
        ShadowCompletes(dom, place, frame, el, st, end, next);
      } else {
        FrameCompletes(dom, place, el, shadowed, next);
      }
    }
  }

  // ---- The observation ----

  lemma StartedIsGood(dom: Dom)
    ensures Good(dom, Started(dom)) && In(dom, Place(dom.main, None), MainFrame, Started(dom).iframeIds)
  {
    assert Chain(dom, [Place(dom.main, None)]);
  }

  lemma ObservationIsGood(dom: Dom)
    ensures Good(dom, Observed(dom))
  {
    StartedIsGood(dom);
    WalkedKeeps(dom, Place(dom.main, None), MainFrame, Started(dom));
  }

  /** Within both limits whatever leads to what, references in order, no element
      twice, and a truncation record that is the final counts. */
  lemma ObservationIsBounded(dom: Dom)
    ensures var st := Observed(dom);
            |st.nodes| <= NODE_LIMIT && st.scanned <= SCAN_LIMIT
            && (forall k :: 0 <= k < |st.nodes| ==> st.nodes[k].ref == Obs(k))
            && (forall j, k :: 0 <= j < k < |st.nodes| ==> st.nodes[j].el != st.nodes[k].el)
            && (st.truncated.Some? ==>
                  st.truncated.value.scanned == st.scanned && st.truncated.value.emitted == |st.nodes|
                  && (st.scanned == SCAN_LIMIT || |st.nodes| == NODE_LIMIT))
  {
    ObservationIsGood(dom);
  }

  /** A node describes a wanted element of a document or open shadow root that
      the page leads to, in the frame that document belongs to. */
  lemma NodesAreFound(dom: Dom, k: nat)
    requires k < |Observed(dom).nodes|
    ensures exists place :: FoundAt(dom, Observed(dom).iframeIds, Observed(dom).nodes[k], place)
  {
    ObservationIsGood(dom);
    assert Found(dom, Observed(dom).iframeIds, Observed(dom).nodes[k]);
  }

  /** The main frame is the page's own; every other is that of a frame element of
      a root the page leads to, under that element's URL. */
  lemma FramesAreFound(dom: Dom, k: nat)
    requires k < |Observed(dom).frames|
    ensures if k == 0 then Observed(dom).frames[0] == Frame(MainFrame, dom.url)
            else exists el, place :: FrameShown(dom, Observed(dom).iframeIds, Observed(dom).frames[k], el, place)
  {
    ObservationIsGood(dom);
    if k > 0 {
      assert IsShown(dom, Observed(dom).iframeIds, Observed(dom).frames[k]);
    }
  }

  /** Fields are named in the order of the controls, those that are no nodes left out. */
  lemma {:induction false} FieldsInOrder(refs: map<Elem, Ref>, controls: seq<Elem>, more: seq<Elem>)
    ensures FieldRefs(refs, controls + more) == FieldRefs(refs, controls) + FieldRefs(refs, more)
    ensures |controls| == 1 ==> FieldRefs(refs, controls) == if controls[0] in refs then [refs[controls[0]]] else []
  {
    if controls == [] {
      assert controls + more == more;
    } else {
      assert (controls + more)[1..] == controls[1..] + more;
      FieldsInOrder(refs, controls[1..], more);
    }
  }

  /** The first truncation is the one recorded, with the counts of its moment. */
  lemma FirstTruncationStays(st: State, first: Reason, later: Reason)
    ensures st.truncated.None? ==> Truncated(st, first).truncated == Some(Truncation(first, st.scanned, |st.nodes|))
    ensures Truncated(Truncated(st, first), later) == Truncated(st, first)
  {
  }

  /** A form whose controls are all among its root's elements names exactly the
      nodes among them, in their order. */
  lemma FormOfOwnControls(form: FormFacts, elements: seq<Elem>, refs: map<Elem, Ref>, record: Form)
    requires Records(form, elements, refs, record) && forall el :: el in form.controls ==> el in elements
    ensures record.fieldRefs == FieldRefs(refs, form.controls)
  {
    SameFields(Before(refs, record.known), refs, form.controls);
  }

  /** Not cut short: each wanted element of each root the page leads to is a node,
      and each of the root's forms has its record. */
  lemma ObservationIsComplete(dom: Dom, place: Place)
    requires Observed(dom).truncated.None? && Reached(dom, place)
    ensures RootDone(dom, place.root, Observed(dom))
    ensures forall el :: el in Elements(dom, place.root) && (dom.facts(el).semantic || dom.facts(el).pointer) ==>
              exists k :: 0 <= k < |Observed(dom).nodes| && Observed(dom).nodes[k].el == el
  {
    StartedIsGood(dom);
    ObservationIsGood(dom);
    WalkedCompletes(dom, Place(dom.main, None), MainFrame, Started(dom));
    var chain: seq<Place> :| Chain(dom, chain) && chain[0] == Place(dom.main, None) && chain[|chain| - 1] == place;
    assert RootDone(dom, chain[|chain| - 1].root, Observed(dom));
  }

  /** Cut short at the node limit: something wanted was left out. */
  lemma NodeLimitMeansMore(dom: Dom)
    requires Observed(dom).truncated.Some? && Observed(dom).truncated.value.reason.NodeLimitExceeded?
    ensures exists place, el :: Missed(dom, Observed(dom).refs, place, el)
  {
    ObservationIsGood(dom);
  }

  lemma {:induction false} LastFocusedIsListed(nodes: seq<Node>)
    requires forall k :: 0 <= k < |nodes| ==> nodes[k].ref == Obs(k)
    ensures LastFocused(nodes).Some? ==>
              var n := LastFocused(nodes).value.n;
              LastFocused(nodes).value == Obs(n) && n < |nodes| && nodes[n].focused
              && forall k :: n < k < |nodes| ==> !nodes[k].focused
    ensures LastFocused(nodes).None? ==> forall k :: 0 <= k < |nodes| ==> !nodes[k].focused
  {
    if nodes != [] && !nodes[|nodes| - 1].focused {
      LastFocusedIsListed(nodes[..|nodes| - 1]);
    }
  }

  ghost predicate FramesClosed(st: State) {
    (forall k :: 0 <= k < |st.nodes| ==> IsListed(st.frames, st.nodes[k].frame))
    && (forall k :: 0 <= k < |st.nodes| && st.nodes[k].frameRef.Some?
          ==> IsListed(st.frames, st.nodes[k].frameRef.value))
    && (forall j, k :: 0 <= j < k < |st.frames| ==> st.frames[j].id != st.frames[k].id)
    && (forall a, b :: a in st.iframeIds && b in st.iframeIds && st.iframeIds[a] == st.iframeIds[b] ==> a == b)
  }

  ghost predicate FieldsClosed(st: State) {
    (forall k, r :: 0 <= k < |st.forms| && r in st.forms[k].fieldRefs
       ==> r.n < st.forms[k].known <= |st.nodes| && st.nodes[r.n].ref == r)
    && (forall j, k :: 0 <= j < k < |st.forms| ==> st.forms[j].known <= st.forms[k].known)
  }

  /** The focused reference is that of the last node that was focused. */
  ghost predicate FocusIsLast(st: State) {
    match st.focusedRef
    case Some(ref) =>
      ref.n < |st.nodes| && st.nodes[ref.n].ref == ref && st.nodes[ref.n].focused
      && forall k :: ref.n < k < |st.nodes| ==> !st.nodes[k].focused
    case None => forall k :: 0 <= k < |st.nodes| ==> !st.nodes[k].focused
  }

  lemma FramesAreClosed(dom: Dom, st: State)
    requires Good(dom, st)
    ensures FramesClosed(st)
  {
    forall k | 0 <= k < |st.nodes|
      ensures IsListed(st.frames, st.nodes[k].frame)
      ensures st.nodes[k].frameRef.Some? ==> IsListed(st.frames, st.nodes[k].frameRef.value)
    {
      assert Found(dom, st.iframeIds, st.nodes[k]);
      var place :| FoundAt(dom, st.iframeIds, st.nodes[k], place);
      ListedFrame(st.frames, st.iframeIds, st.nextFrame, place.owner);
      ListedFrame(st.frames, st.iframeIds, st.nextFrame, Some(st.nodes[k].el));
    }
  }

  lemma FieldsAndFocusAreClosed(st: State)
    requires Inv(st)
    ensures FieldsClosed(st) && FocusIsLast(st)
  {
    LastFocusedIsListed(st.nodes);
  }

  /** Every reference in the observation names something in it, fields what was
      listed when their form was read; the focused one is the last that was
      focused; and no two frame elements share a frame. */
  lemma ReferencesAreClosed(dom: Dom)
    ensures var st := Observed(dom); FramesClosed(st) && FieldsClosed(st) && FocusIsLast(st)
  {
    ObservationIsGood(dom);
    FramesAreClosed(dom, Observed(dom));
    FieldsAndFocusAreClosed(Observed(dom));
  }

  predicate IsListed(frames: seq<Frame>, id: FrameId) {
    exists k :: 0 <= k < |frames| && frames[k].id == id
  }

  lemma ListedFrame(frames: seq<Frame>, ids: map<Elem, FrameId>, next: nat, owner: Option<Elem>)
    requires FramesNumbered(frames, ids, next)
    ensures FrameOf(ids, owner).Some? ==> IsListed(frames, FrameOf(ids, owner).value)
  {
    assert frames[0].id == MainFrame;
    if owner.Some? && owner.value in ids {
      assert frames[ids[owner.value].n + 1].id == ids[owner.value];
    }
  }
}
