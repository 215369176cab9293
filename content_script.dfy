/** The controller of content.js: the running flag, the observer and the sweep interval
    bound to the chat container, the retry timeouts of the locator, and the node-identity
    gate in front of the parser. Mutation batches, interval ticks and retry timeouts are
    explicit methods; `chrome.runtime.sendMessage` is the `outbox` the records are appended
    to. The steps are specified by functions over a snapshot of the controller's state. */
module ContentScript {
  import opened Wrappers
  import opened Text
  import opened Dom
  import opened CommentParser

  /** The container selectors, in the order they are tried. */
  const ContainerSelectors: seq<Selector> := [
    Class("webcast-chatroom"),
    Class("chatroom___message-list"),
    AttrEquals("data-e2e", "live-comment-list"),
    Class("CommentList")
  ]

  /** `[data-index]`: the comment rows the sweep and the initial scan pick up. */
  const ItemSelector := HasAttr("data-index")

  // ---------------------------------------------------------------------------
  // The deduplication gate
  // ---------------------------------------------------------------------------

  /** The processed-node set, the messages sent so far and, for each message, the node it
      was built from. */
  datatype Gate = Gate(processed: set<NodeId>, outbox: seq<Record>, sources: seq<NodeId>)

  /** `processCommentNode`: a node seen before is skipped; otherwise it is marked, and its
      record, when it has one, is sent. */
  function Admit(g: Gate, n: Node, doc: Document): Gate {
    if n.id in g.processed then g
    else
      var marked := g.(processed := g.processed + {n.id});
      match Parse(n, doc)
      case None => marked
      case Some(r) => marked.(outbox := g.outbox + [r], sources := g.sources + [n.id])
  }

  /** The nodes handed to the gate one after the other. */
  function AdmitAll(g: Gate, ns: seq<Node>, doc: Document): Gate
    decreases |ns|
  {
    if ns == [] then g else Admit(AdmitAll(g, ns[..|ns| - 1], doc), ns[|ns| - 1], doc)
  }

  /** Every message came from a distinct processed node and holds visible text. */
  predicate GateInv(g: Gate) {
    |g.outbox| == |g.sources|
    && (forall i :: 0 <= i < |g.sources| ==> g.sources[i] in g.processed)
    && (forall i, j :: 0 <= i < j < |g.sources| ==> g.sources[i] != g.sources[j])
    && (forall i :: 0 <= i < |g.outbox| ==> !AllSpace(g.outbox[i].raw))
  }

  /** A node passes the gate exactly when its id is new, and then exactly its record
      (if any) is appended; a node seen before changes nothing. */
  lemma AdmitSpec(g: Gate, n: Node, doc: Document)
    ensures n.id in g.processed ==> Admit(g, n, doc) == g
    ensures n.id !in g.processed ==>
              Admit(g, n, doc).processed == g.processed + {n.id}
              && Admit(g, n, doc).outbox == g.outbox + (if Parse(n, doc).Some? then [Parse(n, doc).value] else [])
  {
    if n.id !in g.processed {
      var p := Parse(n, doc);
      var marked := g.(processed := g.processed + {n.id});
      assert Admit(g, n, doc) == if p.Some? then marked.(outbox := g.outbox + [p.value], sources := g.sources + [n.id]) else marked;
    }
  }

  /** The mark comes before the blank-text exit: a node with blank text is marked and
      sends nothing, and whatever that node object shows later, it never sends. */
  lemma BlankNodeSilenced(g: Gate, n: Node, doc: Document, later: seq<Node>, doc': Document, m: Node)
    requires n.id !in g.processed && AllSpace(FullText(n))
    requires m.id == n.id
    ensures Admit(g, n, doc) == g.(processed := g.processed + {n.id})
    ensures Admit(AdmitAll(Admit(g, n, doc), later, doc'), m, doc') == AdmitAll(Admit(g, n, doc), later, doc')
  {
    RecordProvenance(n, doc);
    AdmitAllGrows(Admit(g, n, doc), later, doc');
  }

  /** The gate only grows the processed set and only appends to the outbox, and every
      message appended comes from a node that had not been processed before. */
  lemma {:induction false} AdmitAllGrows(g: Gate, ns: seq<Node>, doc: Document)
    ensures var h := AdmitAll(g, ns, doc);
            g.processed <= h.processed && g.outbox <= h.outbox && g.sources <= h.sources
            && (|g.outbox| == |g.sources| ==>
                  |h.outbox| == |h.sources|
                  && forall i :: |g.sources| <= i < |h.sources| ==> h.sources[i] !in g.processed)
    decreases |ns|
  {
    if ns != [] {
      var prev := ns[..|ns| - 1];
      AdmitAllGrows(g, prev, doc);
      AdmitGrows(AdmitAll(g, prev, doc), ns[|ns| - 1], doc);
    }
  }

  /** One step of the gate: the sets and sequences only grow, and a message appended
      comes from the node, which was not processed before. */
  lemma AdmitGrows(g: Gate, n: Node, doc: Document)
    ensures var h := Admit(g, n, doc);
            g.processed <= h.processed && g.outbox <= h.outbox && g.sources <= h.sources
            && |h.outbox| - |g.outbox| == |h.sources| - |g.sources|
            && (h.sources == g.sources || (h.sources == g.sources + [n.id] && n.id !in g.processed))
  {
  }

  /** One step keeps the gate invariant: a message comes from the node just marked, whose
      id no earlier message carries, and records only exist for visible text. */
  lemma AdmitInv(g: Gate, n: Node, doc: Document)
    requires GateInv(g)
    ensures GateInv(Admit(g, n, doc))
  {
    if n.id !in g.processed {
      RecordProvenance(n, doc);
      SendInv(g, n.id, Parse(n, doc));
    }
  }

  /** Marking a new node, and sending a record with visible text for it, keeps the
      invariant. */
  lemma SendInv(g: Gate, id: NodeId, r: Option<Record>)
    requires GateInv(g) && id !in g.processed
    requires r.Some? ==> !AllSpace(r.value.raw)
    ensures var marked := g.(processed := g.processed + {id});
            GateInv(if r.Some? then marked.(outbox := g.outbox + [r.value], sources := g.sources + [id]) else marked)
  {
  }

  /** At most one message per node object, whatever the order and repetition of the
      nodes handed to the gate. */
  lemma {:induction false} AdmitAllInv(g: Gate, ns: seq<Node>, doc: Document)
    requires GateInv(g)
    ensures GateInv(AdmitAll(g, ns, doc))
    decreases |ns|
  {
    if ns != [] {
      AdmitAllInv(g, ns[..|ns| - 1], doc);
      AdmitInv(AdmitAll(g, ns[..|ns| - 1], doc), ns[|ns| - 1], doc);
    }
  }

  /** Handing on two lists is handing on their concatenation. */
  lemma {:induction false} AdmitAllAppend(g: Gate, a: seq<Node>, b: seq<Node>, doc: Document)
    ensures AdmitAll(g, a + b, doc) == AdmitAll(AdmitAll(g, a, doc), b, doc)
    decreases |b|
  {
    if b == [] {
      assert a + b == a;
    } else {
      assert (a + b)[..|a + b| - 1] == a + b[..|b| - 1];
      AdmitAllAppend(g, a, b[..|b| - 1], doc);
    }
  }

  /** Sending the same nodes again sends nothing more: a sweep after a sweep, or a sweep
      after the observer delivered the same rows, is harmless. */
  lemma {:induction false} AdmitAllAgain(g: Gate, ns: seq<Node>, doc: Document, doc': Document)
    ensures var h := AdmitAll(g, ns, doc); AdmitAll(h, ns, doc') == h
  {
    var h := AdmitAll(g, ns, doc);
    AdmitAllMarks(g, ns, doc);
    AdmitAllSeen(h, ns, doc');
  }

  /** After the gate, every node handed to it is processed. */
  lemma {:induction false} AdmitAllMarks(g: Gate, ns: seq<Node>, doc: Document)
    ensures forall i :: 0 <= i < |ns| ==> ns[i].id in AdmitAll(g, ns, doc).processed
    decreases |ns|
  {
    if ns != [] {
      var prev := ns[..|ns| - 1];
      AdmitAllMarks(g, prev, doc);
      forall i | 0 <= i < |ns| ensures ns[i].id in AdmitAll(g, ns, doc).processed {
        if i < |ns| - 1 {
          assert ns[i] == prev[i];
        }
      }
    }
  }

  /** Nodes that are all processed already change nothing. */
  lemma {:induction false} AdmitAllSeen(g: Gate, ns: seq<Node>, doc: Document)
    requires forall i :: 0 <= i < |ns| ==> ns[i].id in g.processed
    ensures AdmitAll(g, ns, doc) == g
    decreases |ns|
  {
    if ns != [] {
      var prev := ns[..|ns| - 1];
      forall i | 0 <= i < |prev| ensures prev[i].id in g.processed {
        assert prev[i] == ns[i];
      }
      AdmitAllSeen(g, prev, doc);
    }
  }

  // ---------------------------------------------------------------------------
  // Mutation records
  // ---------------------------------------------------------------------------

  /** The nodes one mutation record routes to the parser. */
  function RoutedBy(m: Mutation): seq<Node> {
    match m
    case ChildList(added) => ElementsOf(added)
    case Attributes(target) => IfElement(target)
  }

  /** The nodes a batch routes to the parser, record after record. */
  function Routed(batch: seq<Mutation>): (r: seq<Node>)
    ensures forall m :: m in r ==> IsElement(m)
    decreases |batch|
  {
    if batch == [] then [] else Routed(batch[..|batch| - 1]) + RoutedBy(batch[|batch| - 1])
  }

  /** Only element nodes reach the parser, and only nodes the batch names. */
  lemma {:induction false} RoutedFromBatch(batch: seq<Mutation>, n: Node)
    requires n in Routed(batch)
    ensures IsElement(n)
    ensures exists k :: 0 <= k < |batch| && (batch[k] == Attributes(n) || (batch[k].ChildList? && n in batch[k].added))
    decreases |batch|
  {
    var prev := batch[..|batch| - 1];
    var last := batch[|batch| - 1];
    if n in Routed(prev) {
      RoutedFromBatch(prev, n);
      var k :| 0 <= k < |prev| && (prev[k] == Attributes(n) || (prev[k].ChildList? && n in prev[k].added));
      assert batch[k] == prev[k];
    } else {
      assert n in RoutedBy(last);
    }
  }

  /** Every added element node of the batch, and every element whose attributes changed,
      reaches the parser. */
  lemma {:induction false} RoutedComplete(batch: seq<Mutation>, k: nat, n: Node)
    requires k < |batch| && IsElement(n)
    requires batch[k] == Attributes(n) || (batch[k].ChildList? && n in batch[k].added)
    ensures n in Routed(batch)
    decreases |batch|
  {
    var prev := batch[..|batch| - 1];
    if k < |prev| {
      assert prev[k] == batch[k];
      RoutedComplete(prev, k, n);
    } else {
      assert n in RoutedBy(batch[k]);
    }
  }

  /** The records are routed one after the other, in the order the batch lists them. */
  lemma {:induction false} RoutedAppend(a: seq<Mutation>, b: seq<Mutation>)
    ensures Routed(a + b) == Routed(a) + Routed(b)
    decreases |b|
  {
    if b == [] {
      assert a + b == a;
    } else {
      var b' := b[..|b| - 1];
      AppendFront(a, b);
      RoutedAppend(a, b');
      AppendAssociates(Routed(a), Routed(b'), RoutedBy(b[|b| - 1]));
    }
  }

  // ---------------------------------------------------------------------------
  // The controller's steps
  // ---------------------------------------------------------------------------

  /** A snapshot of the controller. `observer` is the container the MutationObserver
      watches (`None`: disconnected or never made); `timer` the container the live sweep
      interval watches; `container` is `chatContainer`; `bound` is `commentitem`;
      `retries` counts the locator retries scheduled and not yet run. */
  datatype State = State(
    running: bool,
    observer: Option<NodeId>,
    timer: Option<NodeId>,
    container: Option<NodeId>,
    bound: Option<NodeId>,
    gate: Gate,
    retries: nat)

  const Initial := State(false, None, None, None, None, Gate({}, [], []), 0)

  /** The controller never observes while stopped; an observer always has a sweep
      interval on the same container, which is the bound one; and the gate invariant. */
  predicate Inv(s: State) {
    (!s.running ==> s.observer.None?)
    && (s.observer.Some? ==> s.timer == s.observer && s.bound == s.observer)
    && GateInv(s.gate)
  }

  /** `setupObserver(target)`: the old observer and interval are replaced by new ones on
      `target`, and the rows already in it are scanned. */
  function Bind(s: State, target: Node, doc: Document): State {
    s.(observer := Some(target.id), timer := Some(target.id), bound := Some(target.id),
       gate := AdmitAll(s.gate, QueryAll(target, ItemSelector), doc))
  }

  /** `findAndObserveContainer`: nothing once stopped; otherwise the first container the
      selectors find is bound, and without one a retry is scheduled. */
  function LocateStep(s: State, doc: Document): State {
    if !s.running then s
    else
      match Locate(doc.root, ContainerSelectors)
      case None => s.(container := None, retries := s.retries + 1)
      case Some(c) => Bind(s.(container := Some(c.id)), c, doc)
  }

  function StartStep(s: State, doc: Document): State {
    if s.running then s else LocateStep(s.(running := true), doc)
  }

  /** `stopExtraction`: the observer is disconnected; the interval is left to clear
      itself on its next tick. */
  function StopStep(s: State): State {
    if !s.running then s else s.(running := false, observer := None)
  }

  /** One observer callback: nothing when stopped or disconnected. */
  function MutationStep(s: State, batch: seq<Mutation>, doc: Document): State {
    if !s.running || s.observer.None? then s
    else s.(gate := AdmitAll(s.gate, Routed(batch), doc))
  }

  /** One tick of the live interval on container `s.timer`. */
  function SweepStep(s: State, doc: Document): State
    requires s.timer.Some?
  {
    if !s.running then s.(timer := None)
    else
      match FindNode(doc.root, s.timer.value)
      case Some(c) => s.(gate := AdmitAll(s.gate, QueryAll(c, ItemSelector), doc))
      case None => LocateStep(s.(timer := None, observer := None), doc)
  }

  /** One scheduled retry of the locator running. */
  function RetryStep(s: State, doc: Document): State
    requires s.retries > 0
  {
    LocateStep(s.(retries := s.retries - 1), doc)
  }

  // ---------------------------------------------------------------------------
  // What the steps promise
  // ---------------------------------------------------------------------------

  lemma BindInv(s: State, target: Node, doc: Document)
    requires Inv(s) && s.running
    ensures Inv(Bind(s, target, doc))
  {
    AdmitAllInv(s.gate, QueryAll(target, ItemSelector), doc);
  }

  lemma LocateInv(s: State, doc: Document)
    requires Inv(s)
    requires s.running ==> s.observer.None? || s.timer == s.observer
    ensures Inv(LocateStep(s, doc))
  {
    if s.running {
      match Locate(doc.root, ContainerSelectors)
      case None =>
      case Some(c) => BindInv(s.(container := Some(c.id)), c, doc);
    }
  }

  /** Every step keeps the invariant: at most one message per node, no observer while
      stopped, and an observer only together with an interval on the container it is
      bound to. */
  lemma StepsKeepInv(s: State, doc: Document, batch: seq<Mutation>)
    requires Inv(s)
    ensures Inv(StartStep(s, doc)) && Inv(StopStep(s)) && Inv(MutationStep(s, batch, doc))
    ensures s.timer.Some? ==> Inv(SweepStep(s, doc))
    ensures s.retries > 0 ==> Inv(RetryStep(s, doc))
  {
    if !s.running {
      LocateInv(s.(running := true), doc);
    }
    if s.running && s.observer.Some? {
      AdmitAllInv(s.gate, Routed(batch), doc);
    }
    if s.timer.Some? && s.running {
      match FindNode(doc.root, s.timer.value)
      case Some(c) => AdmitAllInv(s.gate, QueryAll(c, ItemSelector), doc);
      case None => LocateInv(s.(timer := None, observer := None), doc);
    }
    if s.retries > 0 {
      LocateInv(s.(retries := s.retries - 1), doc);
    }
  }

  /** The initial state satisfies the invariant. */
  lemma InitialInv()
    ensures Inv(Initial)
  {
  }

  /** Start while running and stop while stopped change nothing; stop clears the flag
      and drops the observer and sends nothing. */
  lemma StartStopIdempotent(s: State, doc: Document)
    ensures s.running ==> StartStep(s, doc) == s
    ensures !s.running ==> StopStep(s) == s
    ensures s.running ==> !StopStep(s).running && StopStep(s).observer.None? && StopStep(s).gate == s.gate
                          && StopStep(s).timer == s.timer
    ensures StopStep(StopStep(s)) == StopStep(s)
  {
  }

  /** While extraction runs with an observer attached, one callback hands every added
      element node and every element whose attributes changed to the gate: each of them
      is marked processed afterwards, and the messages sent before are kept. */
  lemma ObservedNodesReachGate(s: State, doc: Document, batch: seq<Mutation>, k: nat, n: Node)
    requires s.running && s.observer.Some?
    requires k < |batch| && IsElement(n)
    requires batch[k] == Attributes(n) || (batch[k].ChildList? && n in batch[k].added)
    ensures n.id in MutationStep(s, batch, doc).gate.processed
    ensures s.gate.outbox <= MutationStep(s, batch, doc).gate.outbox
  {
    var r := Routed(batch);
    RoutedComplete(batch, k, n);
    var i :| 0 <= i < |r| && r[i] == n;
    AdmitAllMarks(s.gate, r, doc);
    AdmitAllGrows(s.gate, r, doc);
  }

  /** A stopped controller is inert: observer callbacks and retries do nothing but spend
      the retry, and the interval only clears itself. */
  lemma StoppedIsInert(s: State, doc: Document, batch: seq<Mutation>)
    requires !s.running
    ensures MutationStep(s, batch, doc) == s
    ensures s.retries > 0 ==> RetryStep(s, doc) == s.(retries := s.retries - 1)
    ensures s.timer.Some? ==> SweepStep(s, doc) == s.(timer := None)
  {
  }

  /** Starting binds the first container of the selector order, or schedules a retry
      when no selector matches; a bound container's existing rows are scanned. */
  lemma StartLocates(s: State, doc: Document)
    requires !s.running
    ensures var t := StartStep(s, doc);
            t.running
            && (Locate(doc.root, ContainerSelectors).None? ==>
                  t == s.(running := true, container := None, retries := s.retries + 1))
            && (Locate(doc.root, ContainerSelectors).Some? ==>
                  var c := Locate(doc.root, ContainerSelectors).value;
                  (exists k :: 0 <= k < |ContainerSelectors| && Some(c) == DocQueryFirst(doc.root, ContainerSelectors[k])
                               && forall j :: 0 <= j < k ==> DocQueryFirst(doc.root, ContainerSelectors[j]).None?)
                  && t.container == Some(c.id) && t.observer == Some(c.id) && t.timer == Some(c.id)
                  && t.gate == AdmitAll(s.gate, QueryAll(c, ItemSelector), doc))
  {
    LocateSpec(doc.root, ContainerSelectors);
  }

  /** A sweep of an attached container re-sends nothing already sent: running it twice on
      the same page is running it once. */
  lemma SweepTwice(s: State, doc: Document)
    requires s.running && s.timer.Some? && FindNode(doc.root, s.timer.value).Some?
    ensures SweepStep(SweepStep(s, doc), doc) == SweepStep(s, doc)
  {
    var c := FindNode(doc.root, s.timer.value).value;
    AdmitAllAgain(s.gate, QueryAll(c, ItemSelector), doc, doc);
  }

  /** A sweep of a detached container cancels the interval, disconnects the observer and
      runs the locator. */
  lemma SweepDetached(s: State, doc: Document)
    requires s.running && s.timer.Some? && FindNode(doc.root, s.timer.value).None?
    ensures SweepStep(s, doc) == LocateStep(s.(timer := None, observer := None), doc)
    ensures Locate(doc.root, ContainerSelectors).None? ==>
              SweepStep(s, doc).timer.None? && SweepStep(s, doc).observer.None?
              && SweepStep(s, doc).retries == s.retries + 1 && SweepStep(s, doc).gate == s.gate
  {
  }

  // ---------------------------------------------------------------------------
  // The controller
  // ---------------------------------------------------------------------------

  /** The answer of the message handler; `NoResponse` for an unknown action. */
  datatype Response = Started | Stopped | Status(isExtracting: bool) | NoResponse

  /** `processedNodes` (a `WeakSet` object updated in place) together with the channel
      the records are sent on. */
  class NodeGate {
    var processedNodes: set<NodeId>
    var outbox: seq<Record>
    ghost var sources: seq<NodeId>

    ghost function Value(): Gate
      reads this
    {
      Gate(processedNodes, outbox, sources)
    }

    constructor()
      ensures Value() == Gate({}, [], [])
    {
      processedNodes := {};
      outbox := [];
      sources := [];
    }

    /** `processCommentNode`, with its gate. */
    method ProcessCommentNode(node: Node, doc: Document)
      modifies this
      ensures Value() == Admit(old(Value()), node, doc)
    {
      if node.id in processedNodes {
        return;
      }
      processedNodes := processedNodes + {node.id};
      var r := BuildRecord(node, doc);
      if r.Some? {
        outbox := outbox + [r.value];
        sources := sources + [node.id];
      }
    }

    /** `nodes.forEach(processCommentNode)`. */
    method ProcessAll(nodes: seq<Node>, doc: Document)
      modifies this
      ensures Value() == AdmitAll(old(Value()), nodes, doc)
    {
      var i := 0;
      while i < |nodes|
        invariant 0 <= i <= |nodes|
        invariant Value() == AdmitAll(old(Value()), nodes[..i], doc)
      {
        assert nodes[..i + 1][..i] == nodes[..i];
        ProcessCommentNode(nodes[i], doc);
        i := i + 1;
      }
      assert nodes[..i] == nodes;
    }

    /** `if (node.nodeType === 1) processCommentNode(node)`. */
    method ProcessIfElement(node: Node, doc: Document)
      modifies this
      ensures Value() == AdmitAll(old(Value()), IfElement(node), doc)
    {
      if IsElement(node) {
        ProcessCommentNode(node, doc);
        assert [node][..0] == [];
      }
    }

    /** `mutation.addedNodes.forEach(...)`: the element nodes among the added ones. */
    method ProcessElements(added: seq<Node>, doc: Document)
      modifies this
      ensures Value() == AdmitAll(old(Value()), ElementsOf(added), doc)
    {
      var i := 0;
      while i < |added|
        invariant 0 <= i <= |added|
        invariant Value() == AdmitAll(old(Value()), ElementsOf(added[..i]), doc)
      {
        assert added[..i + 1][..i] == added[..i];
        ProcessIfElement(added[i], doc);
        AdmitAllAppend(old(Value()), ElementsOf(added[..i]), IfElement(added[i]), doc);
        i := i + 1;
      }
      assert added[..i] == added;
    }

    /** One mutation record: the added element nodes, or the changed element itself. */
    method ProcessMutation(mutation: Mutation, doc: Document)
      modifies this
      ensures Value() == AdmitAll(old(Value()), RoutedBy(mutation), doc)
    {
      if mutation.ChildList? {
        ProcessElements(mutation.added, doc);
      } else {
        ProcessIfElement(mutation.target, doc);
      }
    }

    /** The observer callback's loop over one batch of mutation records. */
    method ProcessBatch(batch: seq<Mutation>, doc: Document)
      modifies this
      ensures Value() == AdmitAll(old(Value()), Routed(batch), doc)
    {
      var k := 0;
      while k < |batch|
        invariant 0 <= k <= |batch|
        invariant Value() == AdmitAll(old(Value()), Routed(batch[..k]), doc)
      {
        assert batch[..k + 1][..k] == batch[..k];
        ProcessMutation(batch[k], doc);
        AdmitAllAppend(old(Value()), Routed(batch[..k]), RoutedBy(batch[k]), doc);
        k := k + 1;
      }
      assert batch[..k] == batch;
    }
  }

  class Controller {
    var isExtracting: bool
    var observer: Option<NodeId>
    var observerTimer: Option<NodeId>
    var chatContainer: Option<NodeId>
    var commentItem: Option<NodeId>
    var pendingRetries: nat
    const gate: NodeGate

    ghost function Snapshot(): State
      reads this, gate
    {
      State(isExtracting, observer, observerTimer, chatContainer, commentItem, gate.Value(), pendingRetries)
    }

    ghost predicate Valid()
      reads this, gate
    {
      Inv(Snapshot())
    }

    /** The script as loaded: stopped, nothing bound, nothing processed. */
    constructor()
      ensures Snapshot() == Initial && Valid()
    {
      isExtracting := false;
      observer := None;
      observerTimer := None;
      chatContainer := None;
      commentItem := None;
      pendingRetries := 0;
      gate := new NodeGate();
    }

    /** `setupObserver(targetNode)`. */
    method SetupObserver(targetNode: Node, doc: Document)
      requires Valid() && isExtracting
      modifies this, gate
      ensures Snapshot() == Bind(old(Snapshot()), targetNode, doc)
      ensures Valid()
    {
      BindInv(Snapshot(), targetNode, doc);
      commentItem := Some(targetNode.id);
      observer := Some(targetNode.id);
      observerTimer := Some(targetNode.id);
      var existingItems := QueryAll(targetNode, ItemSelector);
      gate.ProcessAll(existingItems, doc);
    }

    /** `findAndObserveContainer`. */
    method FindAndObserveContainer(doc: Document)
      requires Valid()
      modifies this, gate
      ensures Snapshot() == LocateStep(old(Snapshot()), doc)
      ensures Valid()
    {
      LocateInv(Snapshot(), doc);
      if !isExtracting {
        return;
      }
      chatContainer := None;
      var element := FirstMatching(doc.root, ContainerSelectors);
      if element.None? {
        pendingRetries := pendingRetries + 1;
        return;
      }
      chatContainer := Some(element.value.id);
      SetupObserver(element.value, doc);
    }

    /** `startExtraction`. */
    method StartExtraction(doc: Document)
      requires Valid()
      modifies this, gate
      ensures Snapshot() == StartStep(old(Snapshot()), doc)
      ensures Valid()
    {
      StepsKeepInv(Snapshot(), doc, []);
      if isExtracting {
        return;
      }
      isExtracting := true;
      FindAndObserveContainer(doc);
    }

    /** `stopExtraction`. */
    method StopExtraction()
      requires Valid()
      modifies this
      ensures Snapshot() == StopStep(old(Snapshot()))
      ensures Valid()
    {
      if !isExtracting {
        return;
      }
      isExtracting := false;
      if observer.Some? {
        observer := None;
      }
    }

    /** The `chrome.runtime.onMessage` listener. */
    method OnMessage(action: string, doc: Document) returns (response: Response)
      requires Valid()
      modifies this, gate
      ensures action == "START" ==> response == Started && Snapshot() == StartStep(old(Snapshot()), doc)
      ensures action == "STOP" ==> response == Stopped && Snapshot() == StopStep(old(Snapshot()))
      ensures action == "GET_STATUS" ==> response == Status(old(isExtracting)) && Snapshot() == old(Snapshot())
      ensures action !in {"START", "STOP", "GET_STATUS"} ==> response == NoResponse && Snapshot() == old(Snapshot())
      ensures Valid()
    {
      if action == "START" {
        StartExtraction(doc);
        response := Started;
      } else if action == "STOP" {
        StopExtraction();
        response := Stopped;
      } else if action == "GET_STATUS" {
        response := Status(isExtracting);
      } else {
        response := NoResponse;
      }
    }

    /** The observer callback on one batch of mutation records. */
    method OnMutations(batch: seq<Mutation>, doc: Document)
      requires Valid()
      modifies gate
      ensures Snapshot() == MutationStep(old(Snapshot()), batch, doc)
      ensures Valid()
    {
      StepsKeepInv(Snapshot(), doc, batch);
      if observer.None? || !isExtracting {
        return;
      }
      gate.ProcessBatch(batch, doc);
    }

    /** One tick of the sweep interval. */
    method SweepTick(doc: Document)
      requires Valid() && observerTimer.Some?
      modifies this, gate
      ensures Snapshot() == SweepStep(old(Snapshot()), doc)
      ensures Valid()
    {
      StepsKeepInv(Snapshot(), doc, []);
      if !isExtracting {
        observerTimer := None;
        return;
      }
      var targetNode := FindNode(doc.root, observerTimer.value);
      if targetNode.Some? {
        var items := QueryAll(targetNode.value, ItemSelector);
        gate.ProcessAll(items, doc);
      } else {
        observerTimer := None;
        if observer.Some? {
          observer := None;
        }
        FindAndObserveContainer(doc);
      }
    }

    /** One scheduled `setTimeout(findAndObserveContainer, 3000)` firing. */
    method RetryTick(doc: Document)
      requires Valid() && pendingRetries > 0
      modifies this, gate
      ensures Snapshot() == RetryStep(old(Snapshot()), doc)
      ensures Valid()
    {
      pendingRetries := pendingRetries - 1;
      FindAndObserveContainer(doc);
    }
  }
}
