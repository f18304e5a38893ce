/** The streaming XML budgets (src/secure_xml/mod.rs:34-120) against the tree they
    bound. The clock and malformed markup are left out: events come from a tree. */
module XmlBudget {
  import opened Numbers
  import opened Outcomes
  import opened Unicode

  /** The five characters that section 4.6 of XML 1.0 predeclares entities for. */
  type EntityChar = c: Scalar | c in {34, 38, 39, 60, 62} witness 34

  /** A stretch of character data, after line-end normalisation. */
  datatype Piece =
    | Text(content: seq<Scalar>) | CData(content: seq<Scalar>)
    | CharRef(code: Scalar) | Predefined(c: EntityChar) | Undeclared

  /** The characters it stands for. */
  function Content(p: Piece): seq<Scalar> {
    match p
    case Text(content) => content
    case CData(content) => content
    case CharRef(code) => [code]
    case Predefined(c) => [c]
    case Undeclared => []
  }

  datatype Item =
    | Element(children: seq<Item>) | EmptyTag | Data(piece: Piece)
    | Comment | Instruction | Declaration | DocType

  datatype Event =
    | Start | End | EmptyEvent | DataEvent(piece: Piece)
    | CommentEvent | InstructionEvent | DeclarationEvent | DocTypeEvent

  datatype Budget = Budget(maxDepth: nat, maxNodes: nat, maxText: nat, maxRun: nat)

  datatype XmlError = ForbiddenDeclaration | OverNodes | OverDepth | OverText | OverTextNode

  function Emit(items: seq<Item>): seq<Event> {
    if items == [] then []
    else (match items[0]
      case Element(children) => [Start] + Emit(children) + [End]
      case EmptyTag => [EmptyEvent]
      case Data(p) => [DataEvent(p)]
      case Comment => [CommentEvent]
      case Instruction => [InstructionEvent]
      case Declaration => [DeclarationEvent]
      case DocType => [DocTypeEvent]) + Emit(items[1..])
  }

  /** What the scan counts for a piece, without building it. */
  function Length(p: Piece): nat {
    match p
    case Text(content) => Utf8Length(content)
    case CData(content) => Utf8Length(content)
    case CharRef(code) => Utf8Size(code)
    case Predefined(_) => 1
    case Undeclared => 0
  }

  /** The size of a text in UTF-8. */
  function Octets(content: seq<Scalar>): nat { |EncodeUtf8(content)| }

  lemma OctetsGrow(content: seq<Scalar>, p: Piece)
    ensures Octets([]) == 0 && Octets(Content(p)) == Length(p)
    ensures Octets(content + Content(p)) == Octets(content) + Length(p)
  {
    EncodedLength(content);
    EncodedLength(Content(p));
    EncodedLength(content + Content(p));
    LengthAppend(content, Content(p));
    if p.CharRef? || p.Predefined? { LengthOne(Content(p)[0]); }
  }

  lemma LengthOne(c: Scalar)
    ensures Utf8Length([c]) == Utf8Size(c)
  {
    assert Utf8Length([c]) == Utf8Size(c) + Utf8Length([c][1..]);
  }

  lemma {:induction false} LengthAppend(a: seq<Scalar>, b: seq<Scalar>)
    ensures Utf8Length(a + b) == Utf8Length(a) + Utf8Length(b)
  {
    if a == [] {
      assert a + b == b;
    } else {
      LengthAppend(a[1..], b);
      assert (a + b)[1..] == a[1..] + b;
    }
  }

  // ---------- The scan ----------

  /** `run` is the length of the text node the last event belongs to. */
  datatype Scan = Scan(depth: nat, nodes: nat, text: nat, run: Option<nat>)

  const START := Scan(1, 1, 0, None)

  function AddNode(nodes: nat, depth: nat, b: Budget): Result<nat, XmlError> {
    if nodes + 1 > b.maxNodes then Err(OverNodes) else if depth > b.maxDepth then Err(OverDepth) else Ok(nodes + 1)
  }

  function Grow(s: Scan, length: nat, b: Budget): Result<Scan, XmlError> {
    var counted := if s.run.None? then AddNode(s.nodes, s.depth + 1, b) else Ok(s.nodes);
    if counted.Err? then Err(counted.error)
    else
      var run := (if s.run.Some? then s.run.value else 0) + length;
      if run > b.maxRun then Err(OverTextNode)
      else if s.text + length > b.maxText then Err(OverText)
      else Ok(Scan(s.depth, counted.value, s.text + length, Some(run)))
  }

  function Feed(s: Scan, e: Event, b: Budget): Result<Scan, XmlError> {
    match e
    case DataEvent(p) => if p.Undeclared? then Err(ForbiddenDeclaration) else Grow(s, Length(p), b)
    case Start => (
      match AddNode(s.nodes, s.depth + 1, b)
      case Ok(nodes) => Ok(Scan(s.depth + 1, nodes, s.text, None))
      case Err(error) => Err(error))
    case End => if s.depth == 0 then Err(OverDepth) else Ok(Scan(s.depth - 1, s.nodes, s.text, None))
    case DeclarationEvent => Ok(s.(run := None))
    case DocTypeEvent => Err(ForbiddenDeclaration)
    case _ => (
      match AddNode(s.nodes, s.depth + 1, b)
      case Ok(nodes) => Ok(Scan(s.depth, nodes, s.text, None))
      case Err(error) => Err(error))
  }

  function Run(s: Scan, events: seq<Event>, b: Budget): Result<Scan, XmlError>
    decreases |events|
  {
    if events == [] then Ok(s)
    else match Feed(s, events[0], b)
      case Ok(next) => Run(next, events[1..], b)
      case Err(error) => Err(error)
  }

  /** Counters that would overflow have passed their budget, which is a machine word. */
  method AddNodeTo(nodes: nat, depth: nat, b: Budget) returns (r: Result<nat, XmlError>)
    ensures r == AddNode(nodes, depth, b)
  {
    var more := nodes + 1;
    if more > b.maxNodes { return Err(OverNodes); }
    if depth > b.maxDepth { return Err(OverDepth); }
    return Ok(more);
  }

  method Preflight(events: seq<Event>, b: Budget) returns (r: Result<(), XmlError>)
    ensures match Run(START, events, b) case Ok(_) => r == Ok(()) case Err(error) => r == Err(error)
  {
    var depth: nat, nodes: nat, text: nat := 1, 1, 0;
    var run: Option<nat> := None;
    var i := 0;
    assert events[0..] == events;
    while i < |events|
      invariant 0 <= i <= |events|
      invariant Run(START, events, b) == Run(Scan(depth, nodes, text, run), events[i..], b)
      decreases |events| - i
    {
      var event := events[i];
      assert events[i..][1..] == events[i + 1..];
      if !event.DataEvent? { run := None; }
      match event {
        case DataEvent(piece) =>
          if piece.Undeclared? { return Err(ForbiddenDeclaration); }
          var length := Length(piece);
          if run.None? {
            var added := AddNodeTo(nodes, depth + 1, b);
            if added.Err? { return Err(added.error); }
            nodes := added.value;
          }
          var longer := (if run.Some? then run.value else 0) + length;
          run := Some(longer);
          if longer > b.maxRun { return Err(OverTextNode); }
          text := text + length;
          if text > b.maxText { return Err(OverText); }
        case Start =>
          depth := depth + 1;
          var added := AddNodeTo(nodes, depth, b);
          if added.Err? { return Err(added.error); }
          nodes := added.value;
        case End =>
          if depth == 0 { return Err(OverDepth); }
          depth := depth - 1;
        case DocTypeEvent =>
          return Err(ForbiddenDeclaration);
        case DeclarationEvent =>
        case _ =>
          var added := AddNodeTo(nodes, depth + 1, b);
          if added.Err? { return Err(added.error); }
          nodes := added.value;
      }
      i := i + 1;
    }
    return Ok(());
  }

  // ---------- The tree a parser would build ----------

  datatype Node = ElementNode(children: seq<Node>) | TextNode(content: seq<Scalar>) | OtherNode

  function Flush(run: Option<seq<Scalar>>): seq<Node> { if run.Some? then [TextNode(run.value)] else [] }

  function Joined(run: Option<seq<Scalar>>, p: Piece): seq<Scalar> {
    (if run.Some? then run.value else []) + Content(p)
  }

  /** Adjacent text, CDATA sections and references become one node; `run` is what
      has been read of the node in front. */
  function Merge(items: seq<Item>, run: Option<seq<Scalar>>): seq<Node> {
    if items == [] then Flush(run)
    else match items[0]
      case Data(p) => Merge(items[1..], Some(Joined(run, p)))
      case Element(children) => Flush(run) + ([ElementNode(Merge(children, None))] + Merge(items[1..], None))
      case Declaration => Flush(run) + Merge(items[1..], None)
      case DocType => Flush(run) + Merge(items[1..], None)
      case _ => Flush(run) + ([OtherNode] + Merge(items[1..], None))
  }

  predicate Clean(items: seq<Item>) {
    items == []
    || (&& !items[0].DocType? && items[0] != Data(Undeclared)
        && (items[0].Element? ==> Clean(items[0].children))
        && Clean(items[1..]))
  }

  function Count(nodes: seq<Node>): nat {
    if nodes == [] then 0
    else 1 + (if nodes[0].ElementNode? then Count(nodes[0].children) else 0) + Count(nodes[1..])
  }

  function TextBytes(nodes: seq<Node>): nat {
    if nodes == [] then 0
    else
      (match nodes[0] case ElementNode(c) => TextBytes(c) case TextNode(c) => Octets(c) case OtherNode => 0)
      + TextBytes(nodes[1..])
  }

  function Longest(nodes: seq<Node>): nat {
    if nodes == [] then 0
    else
      Max(match nodes[0] case ElementNode(c) => Longest(c) case TextNode(c) => Octets(c) case OtherNode => 0,
          Longest(nodes[1..]))
  }

  function Depth(nodes: seq<Node>): nat {
    if nodes == [] then 0
    else Max(1 + if nodes[0].ElementNode? then Depth(nodes[0].children) else 0, Depth(nodes[1..]))
  }

  /** Below the document node, which is node one at depth one. */
  predicate Within(nodes: seq<Node>, b: Budget) {
    && (nodes != [] ==> 1 + Count(nodes) <= b.maxNodes && 1 + Depth(nodes) <= b.maxDepth)
    && TextBytes(nodes) <= b.maxText && Longest(nodes) <= b.maxRun
  }

  // ---------- The scan measures the tree ----------

  lemma {:induction false} RunAppend(s: Scan, a: seq<Event>, c: seq<Event>, b: Budget)
    ensures Run(s, a + c, b) == match Run(s, a, b) case Ok(next) => Run(next, c, b) case Err(error) => Err(error)
    decreases |a|
  {
    hide Feed;
    if a == [] {
      assert a + c == c;
    } else {
      assert (a + c)[1..] == a[1..] + c;
      match Feed(s, a[0], b)
      case Ok(next) => RunAppend(next, a[1..], c, b);
      case Err(_) =>
    }
  }

  /** What a scan in state s has already paid for the text node it is in. */
  function Paid(s: Scan): nat { if s.run.Some? then 1 else 0 }

  function Read(s: Scan): nat { if s.run.Some? then s.run.value else 0 }

  predicate Sound(s: Scan, b: Budget) {
    && s.text <= b.maxText && Read(s) <= s.text && Read(s) <= b.maxRun
    && (s.run.Some? ==> 1 <= s.nodes <= b.maxNodes && s.depth + 1 <= b.maxDepth)
  }

  predicate Room(s: Scan, nodes: seq<Node>, b: Budget) {
    && (nodes != [] ==> s.nodes - Paid(s) + Count(nodes) <= b.maxNodes && s.depth + Depth(nodes) <= b.maxDepth)
    && s.text - Read(s) + TextBytes(nodes) <= b.maxText && Longest(nodes) <= b.maxRun
  }

  /** The text node the last of the items belongs to. */
  function EndRun(items: seq<Item>, run: Option<seq<Scalar>>): Option<seq<Scalar>> {
    if items == [] then run
    else if items[0].Data? then EndRun(items[1..], Some(Joined(run, items[0].piece)))
    else EndRun(items[1..], None)
  }

  /** The scan keeps the length of the text that the tree keeps. */
  function Sized(run: Option<seq<Scalar>>): Option<nat> { if run.Some? then Some(Octets(run.value)) else None }

  /** A text node begun stays the first node of the merged list. */
  lemma {:induction false} Begun(items: seq<Item>, content: seq<Scalar>)
    ensures var nodes, n := Merge(items, Some(content)), Octets(content);
            nodes != [] && Count(nodes) >= 1 && Depth(nodes) >= 1 && TextBytes(nodes) >= n && Longest(nodes) >= n
    decreases |items|
  {
    if items != [] && items[0].Data? {
      OctetsGrow(content, items[0].piece);
      Begun(items[1..], content + Content(items[0].piece));
    } else {
      assert Merge(items, Some(content))[0] == TextNode(content);
    }
  }

  /** `next` is s with the items read. */
  ghost predicate Reaches(s: Scan, run: Option<seq<Scalar>>, items: seq<Item>, next: Scan) {
    var nodes := Merge(items, run);
    && next.depth == s.depth && next.run == Sized(EndRun(items, run))
    && next.nodes == s.nodes - Paid(s) + Count(nodes) && next.text == s.text - Read(s) + TextBytes(nodes)
  }

  /** The scan, within the text `run`, gets through the items exactly when their
      merged tree fits. */
  ghost predicate Measured(s: Scan, run: Option<seq<Scalar>>, items: seq<Item>, b: Budget) {
    var r := Run(s, Emit(items), b);
    && (r.Ok? <==> Clean(items) && Room(s, Merge(items, run), b))
    && (r.Ok? ==> Reaches(s, run, items, r.value) && Sound(r.value, b))
  }

  lemma MeasureNone(s: Scan, run: Option<seq<Scalar>>, items: seq<Item>, b: Budget)
    requires items == [] && Sound(s, b) && s.run == Sized(run)
    ensures Measured(s, run, items, b)
  {
    if run.Some? { OneText(run.value); }
  }

  lemma OneText(content: seq<Scalar>)
    ensures var nodes := [TextNode(content)];
            && Count(nodes) == 1 && Depth(nodes) == 1
            && TextBytes(nodes) == Octets(content) && Longest(nodes) == Octets(content)
  {
  }

  lemma MeasureData(s: Scan, run: Option<seq<Scalar>>, items: seq<Item>, b: Budget)
    requires items != [] && items[0].Data? && Sound(s, b) && s.run == Sized(run)
    requires Feed(s, DataEvent(items[0].piece), b).Ok? ==>
               Measured(Feed(s, DataEvent(items[0].piece), b).value, Some(Joined(run, items[0].piece)), items[1..], b)
    ensures Octets(Joined(run, items[0].piece)) == Read(s) + Length(items[0].piece)
    ensures Measured(s, run, items, b)
  {
    hide Count, Depth, TextBytes, Longest, Octets, Content;
    var p := items[0].piece;
    assert Emit(items)[1..] == Emit(items[1..]);
    OctetsGrow(if run.Some? then run.value else [], p);
    Begun(items[1..], Joined(run, p));
  }

  lemma FlushMeasures(run: Option<seq<Scalar>>, nodes: seq<Node>)
    ensures var all := Flush(run) + nodes;
            && (all != [] <==> run.Some? || nodes != [])
            && Count(all) == (if run.Some? then 1 else 0) + Count(nodes)
            && Depth(all) == Max(if run.Some? then 1 else 0, Depth(nodes))
            && TextBytes(all) == (if run.Some? then Octets(run.value) else 0) + TextBytes(nodes)
            && Longest(all) == Max(if run.Some? then Octets(run.value) else 0, Longest(nodes))
  {
    if run.Some? {
      assert (Flush(run) + nodes)[1..] == nodes;
    } else {
      assert Flush(run) + nodes == nodes;
    }
  }

  lemma HeadMeasures(node: Node, nodes: seq<Node>)
    ensures var all, c := [node] + nodes, if node.ElementNode? then node.children else [];
            && Count(all) == 1 + Count(c) + Count(nodes) && Depth(all) == Max(1 + Depth(c), Depth(nodes))
            && (!node.TextNode? ==>
                  TextBytes(all) == TextBytes(c) + TextBytes(nodes) && Longest(all) == Max(Longest(c), Longest(nodes)))
  {
    assert ([node] + nodes)[1..] == nodes;
  }

  /** The node an item stands for when it is not character data. */
  function Other(item: Item): seq<Node> {
    match item
    case Element(children) => [ElementNode(Merge(children, None))]
    case EmptyTag => [OtherNode]
    case Comment => [OtherNode]
    case Instruction => [OtherNode]
    case _ => []
  }

  lemma MergeOther(items: seq<Item>, run: Option<seq<Scalar>>)
    requires items != [] && !items[0].Data?
    ensures Merge(items, run) == Flush(run) + (Other(items[0]) + Merge(items[1..], None))
  {
    assert [] + Merge(items[1..], None) == Merge(items[1..], None);
  }

  lemma MeasureLeaf(s: Scan, run: Option<seq<Scalar>>, items: seq<Item>, b: Budget)
    requires items != [] && (items[0].EmptyTag? || items[0].Comment? || items[0].Instruction?) && Sound(s, b)
    requires s.run == Sized(run)
    requires AddNode(s.nodes, s.depth + 1, b).Ok? ==>
               Measured(Scan(s.depth, s.nodes + 1, s.text, None), None, items[1..], b)
    ensures Measured(s, run, items, b)
  {
    hide Count, Depth, TextBytes, Longest, Merge, Flush;
    var rest := Merge(items[1..], None);
    assert Emit(items)[1..] == Emit(items[1..]);
    MergeOther(items, run);
    FlushMeasures(run, [OtherNode] + rest);
    HeadMeasures(OtherNode, rest);
    NoNodes();
  }

  lemma NoNodes()
    ensures Count([]) == Depth([]) == TextBytes([]) == Longest([]) == 0
  {
  }

  lemma MeasureSkip(s: Scan, run: Option<seq<Scalar>>, items: seq<Item>, b: Budget)
    requires items != [] && (items[0].Declaration? || items[0].DocType?) && Sound(s, b) && s.run == Sized(run)
    requires Measured(s.(run := None), None, items[1..], b)
    ensures Measured(s, run, items, b)
  {
    hide Count, Depth, TextBytes, Longest, Merge, Flush;
    var rest := Merge(items[1..], None);
    assert Emit(items)[1..] == Emit(items[1..]);
    MergeOther(items, run);
    assert Other(items[0]) + rest == rest;
    FlushMeasures(run, rest);
    NoNodes();
  }

  lemma RunElement(s: Scan, items: seq<Item>, b: Budget)
    requires items != [] && items[0].Element?
    ensures Run(s, Emit(items), b) ==
      match AddNode(s.nodes, s.depth + 1, b)
      case Err(error) => Err(error)
      case Ok(nodes) =>
        match Run(Scan(s.depth + 1, nodes, s.text, None), Emit(items[0].children), b)
        case Err(error) => Err(error)
        case Ok(inner) =>
          if inner.depth == 0 then Err(OverDepth)
          else Run(Scan(inner.depth - 1, inner.nodes, inner.text, None), Emit(items[1..]), b)
  {
    hide Emit;
    var inside, rest := Emit(items[0].children), Emit(items[1..]);
    assert Emit(items) == [Start] + (inside + ([End] + rest)) by { EmitElement(items); }
    assert Emit(items)[1..] == inside + ([End] + rest);
    assert ([End] + rest)[1..] == rest;
    if AddNode(s.nodes, s.depth + 1, b).Ok? {
      RunAppend(Scan(s.depth + 1, s.nodes + 1, s.text, None), inside, [End] + rest, b);
    }
  }

  lemma EmitElement(items: seq<Item>)
    requires items != [] && items[0].Element?
    ensures Emit(items) == [Start] + (Emit(items[0].children) + ([End] + Emit(items[1..])))
  {
  }

  lemma MeasureElement(
    s: Scan, run: Option<seq<Scalar>>, items: seq<Item>, inner: Scan, outer: Scan, b: Budget)
    requires items != [] && items[0].Element? && Sound(s, b) && s.run == Sized(run)
    requires inner == Scan(s.depth + 1, s.nodes + 1, s.text, None)
    requires AddNode(s.nodes, s.depth + 1, b).Ok? ==> Measured(inner, None, items[0].children, b)
    requires match Run(inner, Emit(items[0].children), b)
             case Ok(x) =>
               && outer == Scan(s.depth, x.nodes, x.text, None)
               && (AddNode(s.nodes, s.depth + 1, b).Ok? ==> Measured(outer, None, items[1..], b))
             case Err(_) => true
    ensures Measured(s, run, items, b)
  {
    hide Count, Depth, TextBytes, Longest, Merge, Flush, Run, Emit;
    var below, rest := Merge(items[0].children, None), Merge(items[1..], None);
    RunElement(s, items, b);
    MergeOther(items, run);
    FlushMeasures(run, [ElementNode(below)] + rest);
    HeadMeasures(ElementNode(below), rest);
    NoNodes();
  }

  lemma {:induction false} ScanMeasures(s: Scan, run: Option<seq<Scalar>>, items: seq<Item>, b: Budget)
    requires Sound(s, b) && s.run == Sized(run)
    ensures Measured(s, run, items, b)
    decreases items
  {
    hide Measured, Sound, Run, Feed, Emit;
    assert Sound(s.(run := None), b) by { SoundWithout(s, b); }
    if items == [] {
      MeasureNone(s, run, items, b);
    } else {
      match items[0]
      case Data(p) =>
        var next := Feed(s, DataEvent(p), b);
        if next.Ok? {
          SoundFeed(s, p, b);
          FedRun(s, run, p, b);
          ScanMeasures(next.value, Some(Joined(run, p)), items[1..], b);
        }
        MeasureData(s, run, items, b);
      case Element(children) =>
        var inner := Scan(s.depth + 1, s.nodes + 1, s.text, None);
        var outer := s;
        SoundInner(s, b);
        ScanMeasures(inner, None, children, b);
        var r := Run(inner, Emit(children), b);
        if r.Ok? {
          outer := Scan(s.depth, r.value.nodes, r.value.text, None);
          SoundOuter(inner, children, r.value, outer, b);
          ScanMeasures(outer, None, items[1..], b);
        }
        MeasureElement(s, run, items, inner, outer, b);
      case Declaration =>
        ScanMeasures(s.(run := None), None, items[1..], b);
        MeasureSkip(s, run, items, b);
      case DocType =>
        ScanMeasures(s.(run := None), None, items[1..], b);
        MeasureSkip(s, run, items, b);
      case _ =>
        SoundNext(s, b);
        ScanMeasures(Scan(s.depth, s.nodes + 1, s.text, None), None, items[1..], b);
        MeasureLeaf(s, run, items, b);
    }
  }

  lemma SoundWithout(s: Scan, b: Budget)
    requires Sound(s, b)
    ensures Sound(s.(run := None), b)
  {
  }

  lemma SoundNext(s: Scan, b: Budget)
    requires Sound(s, b)
    ensures Sound(Scan(s.depth, s.nodes + 1, s.text, None), b)
  {
  }

  lemma SoundInner(s: Scan, b: Budget)
    requires Sound(s, b)
    ensures Sound(Scan(s.depth + 1, s.nodes + 1, s.text, None), b)
  {
  }

  lemma FedRun(s: Scan, run: Option<seq<Scalar>>, p: Piece, b: Budget)
    requires s.run == Sized(run) && Feed(s, DataEvent(p), b).Ok?
    ensures Feed(s, DataEvent(p), b).value.run == Sized(Some(Joined(run, p)))
  {
    hide Octets, Content;
    OctetsGrow(if run.Some? then run.value else [], p);
  }

  lemma SoundFeed(s: Scan, p: Piece, b: Budget)
    requires Sound(s, b) && Feed(s, DataEvent(p), b).Ok?
    ensures Sound(Feed(s, DataEvent(p), b).value, b)
  {
  }

  lemma SoundOuter(inner: Scan, items: seq<Item>, last: Scan, outer: Scan, b: Budget)
    requires Measured(inner, None, items, b) && Run(inner, Emit(items), b) == Ok(last)
    requires outer.text == last.text && outer.run == None
    ensures Sound(outer, b)
  {
  }

  /** `preflight` accepts the events of a document exactly when the document has no
      DOCTYPE and no undeclared reference and its merged tree is within every budget. */
  lemma PreflightExact(items: seq<Item>, b: Budget)
    ensures Run(START, Emit(items), b).Ok? <==> Clean(items) && Within(Merge(items, None), b)
  {
    ScanMeasures(START, None, items, b);
  }
}
