/** The earlier content script, content.history.js: the same running flag, locator and
    node-identity gate, an observer on inserted nodes only, no sweep interval, and a record
    that is the node's text as it stands. */
module HistoryScript {
  import opened Wrappers
  import opened Text
  import opened Dom

  /** `CONFIG.containerSelector`: `div[class*="webcast-chatroom"] div div`. */
  const ConfiguredContainer := Descendant([
    Compound(Some("div"), Some("webcast-chatroom")),
    Compound(Some("div"), None),
    Compound(Some("div"), None)
  ])

  /** The container selectors tried after the configured one, in order. */
  const ContainerSelectors: seq<Selector> := [
    Class("webcast-chatroom"),
    Class("chatroom___message-list"),
    AttrEquals("data-e2e", "live-comment-list"),
    Class("CommentList")
  ]

  /** The `SAVE_COMMENT` payload of this script. */
  datatype HistoryRecord = HistoryRecord(raw: string, content: string, url: string)

  /** The record of one node: its text, untrimmed, as both `raw` and `content`; `None`
      when the text is blank. */
  function RecordOf(n: Node, doc: Document): Option<HistoryRecord> {
    var fullText := InnerText(n).GetOr("");
    if Trim(fullText) == [] then None else Some(HistoryRecord(fullText, fullText, doc.href))
  }

  /** A record exists exactly for visible text, and keeps that text as it is. */
  lemma RecordOfSpec(n: Node, doc: Document)
    ensures RecordOf(n, doc).Some? <==> !AllSpace(InnerText(n).GetOr(""))
    ensures RecordOf(n, doc).Some? ==>
              var r := RecordOf(n, doc).value;
              r.raw == r.content == InnerText(n).GetOr("") && IsElement(n) && r.url == doc.href
  {
    TrimEmptyIffAllSpace(InnerText(n).GetOr(""));
  }

  // ---------------------------------------------------------------------------
  // The gate
  // ---------------------------------------------------------------------------

  datatype Gate = Gate(processed: set<NodeId>, outbox: seq<HistoryRecord>, sources: seq<NodeId>)

  /** `processCommentNode`: skip a node seen before, mark it, send its record if any. */
  function Admit(g: Gate, n: Node, doc: Document): Gate {
    if n.id in g.processed then g
    else
      var marked := g.(processed := g.processed + {n.id});
      match RecordOf(n, doc)
      case None => marked
      case Some(r) => marked.(outbox := g.outbox + [r], sources := g.sources + [n.id])
  }

  function AdmitAll(g: Gate, ns: seq<Node>, doc: Document): Gate
    decreases |ns|
  {
    if ns == [] then g else Admit(AdmitAll(g, ns[..|ns| - 1], doc), ns[|ns| - 1], doc)
  }

  /** Every message came from a distinct processed node and holds visible text. */
  predicate GateInv(g: Gate) {
    |g.outbox| == |g.sources|
    && (forall i :: 0 <= i < |g.sources| ==> g.sources[i] in g.processed)
    && (forall i, j :: 0 <= i < j < |g.sources| ==> g.sources[i] != g.sources[j])
    && (forall i :: 0 <= i < |g.outbox| ==> !AllSpace(g.outbox[i].raw))
  }

  lemma AdmitInv(g: Gate, n: Node, doc: Document)
    requires GateInv(g)
    ensures GateInv(Admit(g, n, doc))
  {
    if n.id !in g.processed {
      RecordOfSpec(n, doc);
      SendInv(g, n.id, RecordOf(n, doc));
    }
  }

  /** Marking a new node, and sending a record with visible text for it, keeps the
      invariant. */
  lemma SendInv(g: Gate, id: NodeId, r: Option<HistoryRecord>)
    requires GateInv(g) && id !in g.processed
    requires r.Some? ==> !AllSpace(r.value.raw)
    ensures var marked := g.(processed := g.processed + {id});
            GateInv(if r.Some? then marked.(outbox := g.outbox + [r.value], sources := g.sources + [id]) else marked)
  {
  }

  /** At most one message per node object. */
  lemma {:induction false} AdmitAllInv(g: Gate, ns: seq<Node>, doc: Document)
    requires GateInv(g)
    ensures GateInv(AdmitAll(g, ns, doc))
    decreases |ns|
  {
    if ns != [] {
      AdmitAllInv(g, ns[..|ns| - 1], doc);
      AdmitInv(AdmitAll(g, ns[..|ns| - 1], doc), ns[|ns| - 1], doc);
    }
  }

  /** The mark comes before the blank-text exit: a blank node is marked and sends nothing,
      and the same node object sends nothing later. */
  lemma BlankNodeSilenced(g: Gate, n: Node, doc: Document, m: Node, doc': Document)
    requires n.id !in g.processed && AllSpace(InnerText(n).GetOr(""))
    requires m.id == n.id
    ensures Admit(g, n, doc) == g.(processed := g.processed + {n.id})
    ensures Admit(Admit(g, n, doc), m, doc') == Admit(g, n, doc)
  {
    RecordOfSpec(n, doc);
  }

  lemma {:induction false} AdmitAllAppend(g: Gate, a: seq<Node>, b: seq<Node>, doc: Document)
    ensures AdmitAll(g, a + b, doc) == AdmitAll(AdmitAll(g, a, doc), b, doc)
    decreases |b|
  {
    if b == [] {
      assert a + b == a;
    } else {
      assert (a + b)[..|a + b| - 1] == a + b[..|b| - 1];
      AdmitAllAppend(g, a, b[..|b| - 1], doc);
    }
  }

  // ---------------------------------------------------------------------------
  // Observer routing and the steps
  // ---------------------------------------------------------------------------

  /** The nodes one mutation record routes to the parser: the inserted element nodes of a
      `childList` record; attribute records are not acted on. */
  function InsertedBy(m: Mutation): seq<Node> {
    if m.ChildList? then ElementsOf(m.added) else []
  }

  /** The nodes a batch routes to the parser, record after record. */
  function Inserted(batch: seq<Mutation>): (r: seq<Node>)
    ensures forall m :: m in r ==> IsElement(m)
    decreases |batch|
  {
    if batch == [] then [] else Inserted(batch[..|batch| - 1]) + InsertedBy(batch[|batch| - 1])
  }

  /** Only nodes a `childList` record of the batch added are handed to the parser. */
  lemma {:induction false} InsertedFromBatch(batch: seq<Mutation>, n: Node)
    requires n in Inserted(batch)
    ensures exists k :: 0 <= k < |batch| && batch[k].ChildList? && n in batch[k].added
    decreases |batch|
  {
    var prev := batch[..|batch| - 1];
    if n in Inserted(prev) {
      InsertedFromBatch(prev, n);
      var k :| 0 <= k < |prev| && prev[k].ChildList? && n in prev[k].added;
      assert batch[k] == prev[k];
    } else {
      assert n in InsertedBy(batch[|batch| - 1]);
    }
  }

  /** Every element node a `childList` record of the batch added reaches the parser. */
  lemma {:induction false} InsertedComplete(batch: seq<Mutation>, k: nat, n: Node)
    requires k < |batch| && IsElement(n) && batch[k].ChildList? && n in batch[k].added
    ensures n in Inserted(batch)
    decreases |batch|
  {
    var prev := batch[..|batch| - 1];
    if k < |prev| {
      assert prev[k] == batch[k];
      InsertedComplete(prev, k, n);
    } else {
      assert n in InsertedBy(batch[k]);
    }
  }

  /** A batch of attribute records routes nothing. */
  lemma {:induction false} AttributesIgnored(batch: seq<Mutation>)
    requires forall k :: 0 <= k < |batch| ==> batch[k].Attributes?
    ensures Inserted(batch) == []
    decreases |batch|
  {
    if batch != [] {
      var prev := batch[..|batch| - 1];
      forall k | 0 <= k < |prev| ensures prev[k].Attributes? {
        assert prev[k] == batch[k];
      }
      AttributesIgnored(prev);
    }
  }

  datatype State = State(
    running: bool,
    observer: Option<NodeId>,
    container: Option<NodeId>,
    gate: Gate,
    retries: nat)

  const Initial := State(false, None, None, Gate({}, [], []), 0)

  predicate Inv(s: State) {
    (!s.running ==> s.observer.None?) && GateInv(s.gate)
  }

  /** The container the locator settles on: the first listed selector's match when one
      exists, else what the configured selector found. */
  function FindContainer(root: Node): Option<Node> {
    var configured := DocQueryFirst(root, ConfiguredContainer);
    match Locate(root, ContainerSelectors)
    case Some(element) => Some(element)
    case None => configured
  }

  function LocateStep(s: State, doc: Document): State {
    if !s.running then s
    else
      match FindContainer(doc.root)
      case None => s.(container := None, retries := s.retries + 1)
      case Some(c) => s.(container := Some(c.id), observer := Some(c.id))
  }

  function StartStep(s: State, doc: Document): State {
    if s.running then s else LocateStep(s.(running := true), doc)
  }

  function StopStep(s: State): State {
    if !s.running then s else s.(running := false, observer := None)
  }

  function MutationStep(s: State, batch: seq<Mutation>, doc: Document): State {
    if !s.running || s.observer.None? then s
    else s.(gate := AdmitAll(s.gate, Inserted(batch), doc))
  }

  function RetryStep(s: State, doc: Document): State
    requires s.retries > 0
  {
    LocateStep(s.(retries := s.retries - 1), doc)
  }

  /** The listed selectors take precedence over the configured one; the configured match
      is used only when no listed selector matches; with neither a retry is scheduled. */
  lemma LocatorPrecedence(s: State, doc: Document)
    requires s.running
    ensures Locate(doc.root, ContainerSelectors).Some? ==>
              LocateStep(s, doc).container == Some(Locate(doc.root, ContainerSelectors).value.id)
    ensures Locate(doc.root, ContainerSelectors).None? && DocQueryFirst(doc.root, ConfiguredContainer).Some? ==>
              LocateStep(s, doc).container == Some(DocQueryFirst(doc.root, ConfiguredContainer).value.id)
    ensures FindContainer(doc.root).None? <==>
              Locate(doc.root, ContainerSelectors).None? && DocQueryFirst(doc.root, ConfiguredContainer).None?
    ensures FindContainer(doc.root).None? ==>
              LocateStep(s, doc) == s.(container := None, retries := s.retries + 1)
  {
  }

  /** Every step keeps the invariant, so the gate sends at most once per node. */
  lemma StepsKeepInv(s: State, doc: Document, batch: seq<Mutation>)
    requires Inv(s)
    ensures Inv(StartStep(s, doc)) && Inv(StopStep(s)) && Inv(MutationStep(s, batch, doc))
    ensures s.retries > 0 ==> Inv(RetryStep(s, doc))
  {
    if s.running && s.observer.Some? {
      AdmitAllInv(s.gate, Inserted(batch), doc);
    }
  }

  /** Every node handed to the gate ends in the processed set. */
  lemma {:induction false} AdmitAllMarksAll(g: Gate, ns: seq<Node>, doc: Document)
    ensures forall m :: m in ns ==> m.id in AdmitAll(g, ns, doc).processed
    ensures g.processed <= AdmitAll(g, ns, doc).processed && g.outbox <= AdmitAll(g, ns, doc).outbox
    decreases |ns|
  {
    if ns != [] {
      var prev := ns[..|ns| - 1];
      AdmitAllMarksAll(g, prev, doc);
      forall m | m in ns ensures m.id in AdmitAll(g, ns, doc).processed {
        if m != ns[|ns| - 1] {
          var i :| 0 <= i < |ns| && ns[i] == m;
          assert prev[i] == m;
        }
      }
    }
  }

  /** While extraction runs with an observer attached, one callback hands every inserted
      element node to the gate: each is marked processed afterwards, and the messages sent
      before are kept. */
  lemma ObservedNodesReachGate(s: State, doc: Document, batch: seq<Mutation>, k: nat, n: Node)
    requires s.running && s.observer.Some?
    requires k < |batch| && IsElement(n) && batch[k].ChildList? && n in batch[k].added
    ensures n.id in MutationStep(s, batch, doc).gate.processed
    ensures s.gate.outbox <= MutationStep(s, batch, doc).gate.outbox
  {
    InsertedComplete(batch, k, n);
    AdmitAllMarksAll(s.gate, Inserted(batch), doc);
  }

  /** Start while running and stop while stopped change nothing; a stopped script sends
      nothing and its retries only spend themselves. */
  lemma StoppedIsInert(s: State, doc: Document, batch: seq<Mutation>)
    ensures s.running ==> StartStep(s, doc) == s
    ensures !s.running ==> StopStep(s) == s && MutationStep(s, batch, doc) == s
    ensures !s.running && s.retries > 0 ==> RetryStep(s, doc) == s.(retries := s.retries - 1)
    ensures s.running ==> !StopStep(s).running && StopStep(s).observer.None? && StopStep(s).gate == s.gate
  {
  }

  // ---------------------------------------------------------------------------
  // The script
  // ---------------------------------------------------------------------------

  datatype Response = Started | Stopped | Status(isExtracting: bool) | NoResponse

  /** `processedNodes` with the channel the records are sent on. */
  class NodeGate {
    var processedNodes: set<NodeId>
    var outbox: seq<HistoryRecord>
    ghost var sources: seq<NodeId>

    ghost function Value(): Gate
      reads this
    {
      Gate(processedNodes, outbox, sources)
    }

    constructor()
      ensures Value() == Gate({}, [], [])
    {
      processedNodes := {};
      outbox := [];
      sources := [];
    }

    /** `processCommentNode`. */
    method ProcessCommentNode(node: Node, doc: Document)
      modifies this
      ensures Value() == Admit(old(Value()), node, doc)
    {
      if node.id in processedNodes {
        return;
      }
      processedNodes := processedNodes + {node.id};
      var fullText := InnerText(node).GetOr("");
      if Trim(fullText) == [] {
        return;
      }
      var content := fullText;
      outbox := outbox + [HistoryRecord(fullText, content, doc.href)];
      sources := sources + [node.id];
    }

    /** The `nodeType === 1` test in front of `processCommentNode`. */
    method ProcessIfElement(node: Node, doc: Document)
      modifies this
      ensures Value() == AdmitAll(old(Value()), IfElement(node), doc)
    {
      if IsElement(node) {
        ProcessCommentNode(node, doc);
        assert [node][..0] == [];
      }
    }

    /** `addedNodes.forEach(...)` for the element nodes. */
    method ProcessElements(added: seq<Node>, doc: Document)
      modifies this
      ensures Value() == AdmitAll(old(Value()), ElementsOf(added), doc)
    {
      var i := 0;
      while i < |added|
        invariant 0 <= i <= |added|
        invariant Value() == AdmitAll(old(Value()), ElementsOf(added[..i]), doc)
      {
        assert added[..i + 1][..i] == added[..i];
        ProcessIfElement(added[i], doc);
        AdmitAllAppend(old(Value()), ElementsOf(added[..i]), IfElement(added[i]), doc);
        i := i + 1;
      }
      assert added[..i] == added;
    }

    /** One mutation record: the added element nodes of a non-empty `childList` record. */
    method ProcessMutation(mutation: Mutation, doc: Document)
      modifies this
      ensures Value() == AdmitAll(old(Value()), InsertedBy(mutation), doc)
    {
      if mutation.ChildList? && |mutation.added| > 0 {
        ProcessElements(mutation.added, doc);
      }
    }

    /** The observer callback's loop over the batch. */
    method ProcessBatch(batch: seq<Mutation>, doc: Document)
      modifies this
      ensures Value() == AdmitAll(old(Value()), Inserted(batch), doc)
    {
      var k := 0;
      while k < |batch|
        invariant 0 <= k <= |batch|
        invariant Value() == AdmitAll(old(Value()), Inserted(batch[..k]), doc)
      {
        assert batch[..k + 1][..k] == batch[..k];
        ProcessMutation(batch[k], doc);
        AdmitAllAppend(old(Value()), Inserted(batch[..k]), InsertedBy(batch[k]), doc);
        k := k + 1;
      }
      assert batch[..k] == batch;
    }
  }

  class Controller {
    var isExtracting: bool
    var observer: Option<NodeId>
    var chatContainer: Option<NodeId>
    var pendingRetries: nat
    const gate: NodeGate

    ghost function Snapshot(): State
      reads this, gate
    {
      State(isExtracting, observer, chatContainer, gate.Value(), pendingRetries)
    }

    ghost predicate Valid()
      reads this, gate
    {
      Inv(Snapshot())
    }

    constructor()
      ensures Snapshot() == Initial && Valid()
    {
      isExtracting := false;
      observer := None;
      chatContainer := None;
      pendingRetries := 0;
      gate := new NodeGate();
    }

    /** `findAndObserveContainer`: the configured selector first, then the listed ones,
        each match overriding it. */
    method FindAndObserveContainer(doc: Document)
      requires Valid()
      modifies this
      ensures Snapshot() == LocateStep(old(Snapshot()), doc)
      ensures Valid()
    {
      if !isExtracting {
        return;
      }
      var configured := DocQueryFirst(doc.root, ConfiguredContainer);
      chatContainer := if configured.Some? then Some(configured.value.id) else None;
      var element := FirstMatching(doc.root, ContainerSelectors);
      if element.Some? {
        chatContainer := Some(element.value.id);
      }
      if chatContainer.None? {
        pendingRetries := pendingRetries + 1;
        return;
      }
      observer := chatContainer;
    }

    method StartExtraction(doc: Document)
      requires Valid()
      modifies this
      ensures Snapshot() == StartStep(old(Snapshot()), doc)
      ensures Valid()
    {
      StepsKeepInv(Snapshot(), doc, []);
      if isExtracting {
        return;
      }
      isExtracting := true;
      FindAndObserveContainer(doc);
    }

    method StopExtraction()
      requires Valid()
      modifies this
      ensures Snapshot() == StopStep(old(Snapshot()))
      ensures Valid()
    {
      if !isExtracting {
        return;
      }
      isExtracting := false;
      if observer.Some? {
        observer := None;
      }
    }

    method OnMessage(action: string, doc: Document) returns (response: Response)
      requires Valid()
      modifies this
      ensures action == "START" ==> response == Started && Snapshot() == StartStep(old(Snapshot()), doc)
      ensures action == "STOP" ==> response == Stopped && Snapshot() == StopStep(old(Snapshot()))
      ensures action == "GET_STATUS" ==> response == Status(old(isExtracting)) && Snapshot() == old(Snapshot())
      ensures action !in {"START", "STOP", "GET_STATUS"} ==> response == NoResponse && Snapshot() == old(Snapshot())
      ensures Valid()
    {
      if action == "START" {
        StartExtraction(doc);
        response := Started;
      } else if action == "STOP" {
        StopExtraction();
        response := Stopped;
      } else if action == "GET_STATUS" {
        response := Status(isExtracting);
      } else {
        response := NoResponse;
      }
    }

    method OnMutations(batch: seq<Mutation>, doc: Document)
      requires Valid()
      modifies gate
      ensures Snapshot() == MutationStep(old(Snapshot()), batch, doc)
      ensures Valid()
    {
      StepsKeepInv(Snapshot(), doc, batch);
      if observer.None? || !isExtracting {
        return;
      }
      gate.ProcessBatch(batch, doc);
    }

    method RetryTick(doc: Document)
      requires Valid() && pendingRetries > 0
      modifies this
      ensures Snapshot() == RetryStep(old(Snapshot()), doc)
      ensures Valid()
    {
      pendingRetries := pendingRetries - 1;
      FindAndObserveContainer(doc);
    }
  }
}
