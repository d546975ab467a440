/** What the dialog's own layout text wires up (ARP/ARPDlg.cpp), on any five layers and on the
    layers that the dialog makes. */
module DialogLayout {
  import opened Options
  import opened LayoutTokens
  import opened LayoutLinks
  import opened LayoutSpacing
  import Heap = LayerManager

  const DIALOG_LAYOUT: string := "NI ( *Ethernet ( *Network ( *Dlg  -ARP ) *ARP ) )"

  // ---- The tree of the layout, and its text ----

  // An item without a group, the last of its group.
  function Leaf(m: char, n: string): Forest {
    Item(m, n, NoGroup, Empty)
  }

  function NetworkItems(): Forest {
    Item('*', "Dlg", NoGroup, Leaf('-', "ARP"))
  }

  function EthernetItems(): Forest {
    Item('*', "Network", Group(NetworkItems()), Leaf('*', "ARP"))
  }

  function DialogGroup(): Group {
    Group(Item('*', "Ethernet", Group(EthernetItems()), Empty))
  }

  // The words after "*Network (", with the extra space before "-ARP".
  function NetworkLayout(): Layout {
    Then("*Dlg", Space(Then("-ARP", Then(")", Then("*ARP", Then(")", Last(")")))))))
  }

  // The words after the root.
  function WordsLayout(): Layout {
    Then("(", Then("*Ethernet", Then("(", Then("*Network", Then("(", NetworkLayout())))))
  }

  // The words that end the layout: ") *ARP ) )".
  function TailLayout(): Layout {
    Then(")", Then("*ARP", Then(")", Last(")"))))
  }

  lemma TextOfTail()
    ensures Text(TailLayout()) == ") *ARP ) )"
  {
    assert Text(Then(")", Last(")"))) == ") )";
    assert Text(Then("*ARP", Then(")", Last(")")))) == "*ARP ) )";
  }

  // Printing the words before "*ARP ) )", before "*Dlg" and before "*Network".
  lemma TextBeforeTail(l: Layout)
    ensures Text(Then("*Dlg", Space(Then("-ARP", l)))) == "*Dlg  -ARP " + Text(l)
  {
    assert Text(Space(Then("-ARP", l))) == " -ARP " + Text(l);
  }

  lemma TextBeforeDlg(l: Layout)
    ensures Text(Then("*Network", Then("(", l))) == "*Network ( " + Text(l)
  {
  }

  lemma TextBeforeNetwork(l: Layout)
    ensures Text(Then("NI", Then("(", Then("*Ethernet", Then("(", l))))) == "NI ( *Ethernet ( " + Text(l)
  {
    assert Text(Then("*Ethernet", Then("(", l))) == "*Ethernet ( " + Text(l);
    assert Text(Then("(", Then("*Ethernet", Then("(", l)))) == "( *Ethernet ( " + Text(l);
  }

  lemma LayoutPieces()
    ensures "NI ( *Ethernet ( " + ("*Network ( " + ("*Dlg  -ARP " + ") *ARP ) )")) == DIALOG_LAYOUT
  {
  }

  lemma LayoutText()
    ensures Text(Then("NI", WordsLayout())) == DIALOG_LAYOUT
  {
    TextOfTail();
    TextBeforeTail(TailLayout());
    TextBeforeDlg(NetworkLayout());
    TextBeforeNetwork(Then("*Network", Then("(", NetworkLayout())));
    LayoutPieces();
  }

  lemma ThenHarmless(w: string, r: Layout)
    requires Word(w) && Harmless(r)
    ensures Harmless(Then(w, r)) && Words(Then(w, r)) == [w] + Words(r)
  {
  }

  lemma SpaceHarmless(r: Layout)
    requires Harmless(r) && !Parenthesis(Words(r)[0]) && !UpperItem(Words(r)[0])
    ensures Harmless(Space(r)) && Words(Space(r)) == Words(r)
  {
  }

  lemma TailHarmless()
    ensures Harmless(TailLayout()) && Words(TailLayout()) == [")", "*ARP", ")", ")"]
  {
    ThenHarmless(")", Last(")"));
    ThenHarmless("*ARP", Then(")", Last(")")));
    ThenHarmless(")", Then("*ARP", Then(")", Last(")"))));
  }

  lemma NetworkHarmless()
    ensures Harmless(NetworkLayout())
    ensures Words(NetworkLayout()) == ["*Dlg", "-ARP", ")", "*ARP", ")", ")"]
  {
    TailHarmless();
    ThenHarmless("-ARP", TailLayout());
    SpaceHarmless(Then("-ARP", TailLayout()));
    ThenHarmless("*Dlg", Space(Then("-ARP", TailLayout())));
  }

  lemma WordsHarmless()
    ensures Harmless(WordsLayout())
    ensures Words(WordsLayout())
         == ["(", "*Ethernet", "(", "*Network", "(", "*Dlg", "-ARP", ")", "*ARP", ")", ")"]
  {
    NetworkHarmless();
    var l0 := Then("(", NetworkLayout());
    ThenHarmless("(", NetworkLayout());
    ThenHarmless("*Network", l0);
    var l1 := Then("(", Then("*Network", l0));
    ThenHarmless("(", Then("*Network", l0));
    ThenHarmless("*Ethernet", l1);
    ThenHarmless("(", Then("*Ethernet", l1));
  }

  lemma ItemWords(m: char, n: string, g: Group, next: Forest, w: string)
    requires [m] + n == w
    ensures Print(Item(m, n, g, next)) == [w] + PrintGroup(g) + Print(next)
  {
  }

  lemma NetworkWords()
    ensures PrintGroup(Group(NetworkItems())) == ["(", "*Dlg", "-ARP", ")"]
  {
    ItemWords('-', "ARP", NoGroup, Empty, "-ARP");
    ItemWords('*', "Dlg", NoGroup, Leaf('-', "ARP"), "*Dlg");
    assert Print(NetworkItems()) == ["*Dlg", "-ARP"];
  }

  lemma EthernetWords()
    ensures PrintGroup(Group(EthernetItems())) == ["(", "*Network", "(", "*Dlg", "-ARP", ")", "*ARP", ")"]
  {
    NetworkWords();
    ItemWords('*', "ARP", NoGroup, Empty, "*ARP");
    ItemWords('*', "Network", Group(NetworkItems()), Leaf('*', "ARP"), "*Network");
    assert Print(EthernetItems()) == ["*Network", "(", "*Dlg", "-ARP", ")", "*ARP"];
  }

  lemma GroupWords()
    ensures PrintGroup(DialogGroup())
         == ["(", "*Ethernet", "(", "*Network", "(", "*Dlg", "-ARP", ")", "*ARP", ")", ")"]
  {
    EthernetWords();
    ItemWords('*', "Ethernet", Group(EthernetItems()), Empty, "*Ethernet");
  }

  // ---- The layers it names ----

  // The dialog's five layers, in the order in which it registers them.
  datatype Five<L> = Five(arp: L, network: L, ethernet: L, ni: L, dlg: L)

  function DialogRegistry<L>(f: Five<L>): seq<Entry<L>> {
    [Entry("ARP", f.arp), Entry("Network", f.network), Entry("Ethernet", f.ethernet), Entry("NI", f.ni),
     Entry("Dlg", f.dlg)]
  }

  lemma DialogLookups<L>(f: Five<L>)
    ensures var reg := DialogRegistry(f);
            && Lookup(reg, "ARP") == Some(f.arp) && Lookup(reg, "Network") == Some(f.network)
            && Lookup(reg, "Ethernet") == Some(f.ethernet) && Lookup(reg, "NI") == Some(f.ni)
            && Lookup(reg, "Dlg") == Some(f.dlg)
  {
    var reg := DialogRegistry(f);
    assert "ARP"[0] == 'A' && "Network"[1] == 'e' && "Ethernet"[0] == 'E' && "NI"[1] == 'I' && "Dlg"[0] == 'D';
    LookupAt(reg, 0, "ARP");
    LookupAt(reg, 1, "Network");
    LookupAt(reg, 2, "Ethernet");
    LookupAt(reg, 3, "NI");
    LookupAt(reg, 4, "Dlg");
  }

  function DialogEdges<L>(f: Five<L>): seq<Link<L>> {
    [Link(f.ni, '*', f.ethernet)] + EthernetEdges(f)
  }

  function EthernetEdges<L>(f: Five<L>): seq<Link<L>> {
    [Link(f.ethernet, '*', f.network)] + NetworkEdges(f) + [Link(f.ethernet, '*', f.arp)]
  }

  function NetworkEdges<L>(f: Five<L>): seq<Link<L>> {
    [Link(f.network, '*', f.dlg), Link(f.network, '-', f.arp)]
  }

  lemma LeafEdges<L>(reg: seq<Entry<L>>, p: L, m: char, n: string)
    requires m != '(' && m != ')' && Lookup(reg, n).Some?
    ensures Registered(reg, Leaf(m, n)) && Depth(Leaf(m, n)) == 0
    ensures Edges(reg, p, Leaf(m, n)) == if LinkMode(m) then [Link(p, m, Lookup(reg, n).value)] else []
  {
    assert Registered(reg, Empty) && Edges(reg, p, Empty) == [];
  }

  lemma NetworkTree<L>(f: Five<L>)
    ensures Registered(DialogRegistry(f), NetworkItems()) && Depth(NetworkItems()) == 0
    ensures Edges(DialogRegistry(f), f.network, NetworkItems()) == NetworkEdges(f)
  {
    DialogLookups(f);
    LeafEdges(DialogRegistry(f), f.network, '-', "ARP");
  }

  lemma EthernetTree<L>(f: Five<L>)
    ensures Registered(DialogRegistry(f), EthernetItems()) && Depth(EthernetItems()) == 1
    ensures Edges(DialogRegistry(f), f.ethernet, EthernetItems()) == EthernetEdges(f)
  {
    var reg := DialogRegistry(f);
    DialogLookups(f);
    NetworkTree(f);
    LeafEdges(reg, f.ethernet, '*', "ARP");
    assert GroupRegistered(reg, Group(NetworkItems()));
    assert GroupEdges(reg, f.network, Group(NetworkItems())) == NetworkEdges(f);
  }

  lemma DialogTree<L>(f: Five<L>)
    ensures GroupRegistered(DialogRegistry(f), DialogGroup()) && GroupDepth(DialogGroup()) == 3
    ensures GroupEdges(DialogRegistry(f), f.ni, DialogGroup()) == DialogEdges(f)
  {
    DialogLookups(f);
    EthernetTree(f);
    var reg, item := DialogRegistry(f), Item('*', "Ethernet", Group(EthernetItems()), Empty);
    assert GroupRegistered(reg, Group(EthernetItems())) && Registered(reg, item) && Depth(item) == 2;
    assert GroupEdges(reg, f.ethernet, Group(EthernetItems())) == EthernetEdges(f);
    assert Edges(reg, f.ni, item) == DialogEdges(f);
  }

  lemma DialogNamed<L>(f: Five<L>)
    ensures NoneEmpty(Words(WordsLayout())) && Named(DialogRegistry(f), Words(WordsLayout()))
  {
    DialogLookups(f);
    WordsHarmless();
    assert "*Ethernet"[1..] == "Ethernet" && "*Network"[1..] == "Network" && "*Dlg"[1..] == "Dlg";
    assert "-ARP"[1..] == "ARP" && "*ARP"[1..] == "ARP";
  }

  // ---- The wiring ----

  predicate Different<L(==)>(f: Five<L>) {
    && f.arp != f.network && f.arp != f.ethernet && f.arp != f.ni && f.arp != f.dlg
    && f.network != f.ethernet && f.network != f.ni && f.network != f.dlg
    && f.ethernet != f.ni && f.ethernet != f.dlg && f.ni != f.dlg
  }

  // The layers above and below a layer.
  function DialogUppers<L(==)>(f: Five<L>, l: L): seq<L> {
    if l == f.ni then [f.ethernet]
    else if l == f.ethernet then [f.network, f.arp]
    else if l == f.network then [f.dlg]
    else []
  }

  function DialogUnder<L(==)>(f: Five<L>, l: L): Option<L> {
    if l == f.ethernet then Some(f.ni)
    else if l == f.network then Some(f.arp)
    else if l == f.dlg then Some(f.network)
    else if l == f.arp then Some(f.ethernet)
    else None
  }

  function UpperOf<L(==)>(c: Link<L>, l: L): seq<L> {
    if c.parent == l && c.mode != '-' then [c.child] else []
  }

  function UnderOf<L(==)>(c: Link<L>, l: L, before: Option<L>): Option<L> {
    if c.mode == '-' && c.parent == l then Some(c.child)
    else if c.mode == '*' && c.child == l then Some(c.parent)
    else before
  }

  lemma CallsSnoc<L>(calls: seq<Link<L>>, c: Link<L>, l: L)
    ensures UpperCalls(calls + [c], l) == UpperCalls(calls, l) + UpperOf(c, l)
    ensures LastUnder(calls + [c], l) == UnderOf(c, l, LastUnder(calls, l))
  {
    assert (calls + [c])[..|calls|] == calls;
  }

  lemma OneCall<L>(c: Link<L>, l: L)
    ensures UpperCalls([c], l) == UpperOf(c, l) && LastUnder([c], l) == UnderOf(c, l, None)
  {
    CallsSnoc([], c, l);
    assert [] + [c] == [c];
  }

  lemma FiveCalls<L>(c0: Link<L>, c1: Link<L>, c2: Link<L>, c3: Link<L>, c4: Link<L>, l: L)
    ensures UpperCalls([c0] + [c1] + [c2] + [c3] + [c4], l)
         == UpperOf(c0, l) + UpperOf(c1, l) + UpperOf(c2, l) + UpperOf(c3, l) + UpperOf(c4, l)
    ensures LastUnder([c0] + [c1] + [c2] + [c3] + [c4], l)
         == UnderOf(c4, l, UnderOf(c3, l, UnderOf(c2, l, UnderOf(c1, l, UnderOf(c0, l, None)))))
  {
    OneCall(c0, l);
    CallsSnoc([c0], c1, l);
    CallsSnoc([c0] + [c1], c2, l);
    CallsSnoc([c0] + [c1] + [c2], c3, l);
    CallsSnoc([c0] + [c1] + [c2] + [c3], c4, l);
  }

  lemma DialogProjection<L>(f: Five<L>, l: L)
    requires Different(f)
    ensures UpperCalls(DialogEdges(f), l) == DialogUppers(f, l)
    ensures LastUnder(DialogEdges(f), l) == DialogUnder(f, l)
  {
    var c0, c1, c2 := Link(f.ni, '*', f.ethernet), Link(f.ethernet, '*', f.network), Link(f.network, '*', f.dlg);
    var c3, c4 := Link(f.network, '-', f.arp), Link(f.ethernet, '*', f.arp);
    FiveCalls(c0, c1, c2, c3, c4, l);
    assert DialogEdges(f) == [c0] + [c1] + [c2] + [c3] + [c4];
  }

  // What the layout does to any layer, given the wiring before.
  ghost predicate DialogWired<L>(f: Five<L>, before: Wiring<L>, after: Wiring<L>, l: L) {
    && Uppers(after, l) == Uppers(before, l) + DialogUppers(f, l)
    && match DialogUnder(f, l)
       case Some(under) => l in after.under && after.under[l] == under
       case None => (l in after.under <==> l in before.under) &&
                    (l in before.under ==> after.under[l] == before.under[l])
  }

  lemma DialogRun<L>(f: Five<L>, root: string, g: Group, ws: seq<string>)
    requires root == "NI" && g == DialogGroup() && ws == PrintGroup(g)
    ensures NoneEmpty([root] + ws) && Lookup(DialogRegistry(f), root) == Some(f.ni) && Word(root)
    ensures var r := Run(DialogRegistry(f), Fresh(), [root] + ws);
            r.Linking? && r.stack == [] && r.calls == DialogEdges(f)
  {
    DialogLookups(f);
    DialogTree(f);
    TreeLinks(DialogRegistry(f), root, g);
    assert [root] + ws == PrintTree(root, g);
  }

  lemma WiringOfText<L>(
      reg: seq<Entry<L>>, w: Wiring<L>, root: string, l: Layout, edges: seq<Link<L>>, text: string)
    requires Word(root) && Harmless(l) && Lookup(reg, root).Some? && Named(reg, Words(l))
    requires NoneEmpty([root] + Words(l)) && text == Text(Then(root, l))
    requires var r := Run(reg, Fresh(), [root] + Words(l)); r.Linking? && r.stack == [] && r.calls == edges
    ensures NoneEmpty(Tokens(text))
    ensures var r := Run(reg, Fresh(), Tokens(text));
            r.Linking? && r.stack == [] && LinkCalls(r.calls) && Wire(w, r.calls) == Wire(w, edges)
  {
    HarmlessSpaces(reg, w, root, l);
    RunLinkCalls(reg, Fresh(), Tokens(text));
  }

  lemma LayoutFacts<L>(f: Five<L>, root: string, l: Layout, g: Group)
    requires root == "NI" && l == WordsLayout() && g == DialogGroup()
    ensures Harmless(l) && Named(DialogRegistry(f), Words(l)) && Words(l) == PrintGroup(g)
    ensures DIALOG_LAYOUT == Text(Then(root, l))
  {
    LayoutText();
    DialogNamed(f);
    WordsHarmless();
    GroupWords();
  }

  lemma SameUppers<L>(w: Wiring<L>, a: seq<Link<L>>, b: seq<Link<L>>, l: L)
    requires LinkCalls(a) && LinkCalls(b) && Wire(w, a) == Wire(w, b)
    ensures UpperCalls(a, l) == UpperCalls(b, l)
  {
    WireIsProjection(w, a, l);
    WireIsProjection(w, b, l);
    assert UpperCalls(a, l) == Uppers(Wire(w, a), l)[|Uppers(w, l)|..];
    assert UpperCalls(b, l) == Uppers(Wire(w, b), l)[|Uppers(w, l)|..];
  }

  lemma EdgesAreLinks<L>(f: Five<L>, edges: seq<Link<L>>)
    requires edges == DialogEdges(f)
    ensures LinkCalls(edges)
  {
  }

  lemma LayoutRuns<L>(f: Five<L>, w: Wiring<L>, reg: seq<Entry<L>>, text: string,
                            root: string, l: Layout, g: Group, edges: seq<Link<L>>)
    requires text == DIALOG_LAYOUT && reg == DialogRegistry(f) && edges == DialogEdges(f)
    requires root == "NI" && l == WordsLayout() && g == DialogGroup()
    ensures NoneEmpty(Tokens(text))
    ensures MakesEdges(w, Run(reg, Fresh(), Tokens(text)), edges)
  {
    LayoutFacts(f, root, l, g);
    DialogRun(f, root, g, Words(l));
    WiringOfText(reg, w, root, l, edges, text);
    EdgesAreLinks(f, edges);
  }

  // The run ends with an empty stack and the wiring of the tree's edges.
  ghost predicate MakesEdges<L>(w: Wiring<L>, o: Outcome<L>, edges: seq<Link<L>>) {
    && o.Linking? && o.stack == [] && LinkCalls(o.calls) && LinkCalls(edges)
    && Wire(w, o.calls) == Wire(w, edges)
  }

  lemma WiringAt<L>(f: Five<L>, w: Wiring<L>, calls: seq<Link<L>>, edges: seq<Link<L>>, l: L)
    requires Different(f) && edges == DialogEdges(f) && LinkCalls(edges)
    requires LinkCalls(calls) && Wire(w, calls) == Wire(w, edges)
    ensures DialogWired(f, w, Wire(w, calls), l) && UpperCalls(calls, l) == DialogUppers(f, l)
  {
    DialogProjection(f, l);
    WireIsProjection(w, edges, l);
    SameUppers(w, calls, edges, l);
  }

  // The run ends with an empty stack and wires all these layers as it should.
  ghost predicate WiresDialog<L>(f: Five<L>, w: Wiring<L>, o: Outcome<L>, layers: seq<L>) {
    && o.Linking? && o.stack == []
    && forall l :: l in layers ==>
         DialogWired(f, w, Wire(w, o.calls), l) && UpperCalls(o.calls, l) == DialogUppers(f, l)
  }

  lemma EdgesWireDialog<L>(f: Five<L>, w: Wiring<L>, o: Outcome<L>, edges: seq<Link<L>>, layers: seq<L>)
    requires Different(f) && edges == DialogEdges(f) && MakesEdges(w, o, edges)
    ensures WiresDialog(f, w, o, layers)
  {
    forall l | l in layers
      ensures DialogWired(f, w, Wire(w, o.calls), l) && UpperCalls(o.calls, l) == DialogUppers(f, l)
    {
      WiringAt(f, w, o.calls, edges, l);
    }
  }

  /** The dialog's own layout, double space included, makes Network and ARP the first and the
      second layer above Ethernet (the order Ethernet's Receive relies on), puts the dialog above
      Network and Network above ARP (the way its sends travel down), and does nothing else, whatever
      layers one looks at. */
  lemma DialogWiring<L>(f: Five<L>, w: Wiring<L>, reg: seq<Entry<L>>, text: string, layers: seq<L>)
    requires Different(f) && reg == DialogRegistry(f) && text == DIALOG_LAYOUT
    ensures NoneEmpty(Tokens(text)) && WiresDialog(f, w, Run(reg, Fresh(), Tokens(text)), layers)
  {
    LayoutRuns(f, w, reg, text, "NI", WordsLayout(), DialogGroup(), DialogEdges(f));
    EdgesWireDialog(f, w, Run(reg, Fresh(), Tokens(text)), DialogEdges(f), layers);
  }

  // ---- On the heap ----

  predicate Names(f: Five<Heap.BaseLayer>) {
    && f.arp.name == "ARP" && f.network.name == "Network" && f.ethernet.name == "Ethernet"
    && f.ni.name == "NI" && f.dlg.name == "Dlg"
  }

  function Layers<L>(f: Five<L>): seq<L> {
    [f.arp, f.network, f.ethernet, f.ni, f.dlg]
  }

  // The dialog's layers, not yet linked.
  method MakeLayers() returns (f: Five<Heap.BaseLayer>)
    ensures Different(f) && Names(f)
    ensures forall l :: l in Layers(f) ==> fresh(l) && l.under == null && l.uppers == []
  {
    var arp := new Heap.BaseLayer("ARP");
    var network := new Heap.BaseLayer("Network");
    var ethernet := new Heap.BaseLayer("Ethernet");
    var ni := new Heap.BaseLayer("NI");
    var dlg := new Heap.BaseLayer("Dlg");
    f := Five(arp, network, ethernet, ni, dlg);
  }

  // The manager that knows them.
  method RegisterLayers(f: Five<Heap.BaseLayer>) returns (m: Heap.LayerManager)
    ensures fresh(m) && fresh(m.layers) && fresh(m.stack) && m.Valid()
    ensures m.path == [] && m.nodes == [] && m.tokens == [] && m.table == Layers(f)
  {
    m := new Heap.LayerManager();
    m.AddLayer(f.arp);
    m.AddLayer(f.network);
    m.AddLayer(f.ethernet);
    m.AddLayer(f.ni);
    m.AddLayer(f.dlg);
  }

  lemma TokensStorable(text: string)
    requires |text| < Heap.TOKEN_SIZE && NoneEmpty(Tokens(text))
    ensures Heap.Storable(Tokens(text))
  {
    forall k | 0 <= k < |Tokens(text)|
      ensures 0 < |Tokens(text)[k]| < Heap.TOKEN_SIZE
    {
      TokenFits(text, k);
    }
  }

  lemma LayoutIsShort()
    ensures |DIALOG_LAYOUT| < Heap.TOKEN_SIZE
  {
  }

  lemma UnlinkedLayers(m: Heap.LayerManager, f: Five<Heap.BaseLayer>)
    requires Names(f) && m.table == Layers(f)
    requires forall l :: l in m.table ==> l.under == null && l.uppers == []
    ensures m.Registry() == DialogRegistry(f)
    ensures forall l :: l in m.table ==> l !in m.Wired().under && Uppers(m.Wired(), l) == []
  {
  }

  // The layout gives no layer more than two upper ones.
  lemma RoomForLayout(f: Five<Heap.BaseLayer>, w: Wiring<Heap.BaseLayer>, o: Outcome<Heap.BaseLayer>,
                      table: seq<Heap.BaseLayer>)
    requires WiresDialog(f, w, o, table) && forall l :: l in table ==> Uppers(w, l) == []
    ensures Heap.Roomy(table, w, o.calls)
  {
    forall l | l in table
      ensures |Uppers(w, l)| + |UpperCalls(o.calls, l)| <= MAX_LAYER_NUMBER
    {
      assert |DialogUppers(f, l)| <= 2;
    }
  }

  // Connecting a text that wires the dialog.
  method ConnectLayout(m: Heap.LayerManager, f: Five<Heap.BaseLayer>, text: string)
    requires m.Valid() && m.path == [] && m.nodes == [] && m.tokens == [] && m.table == Layers(f)
    requires forall l :: l in m.table ==> Uppers(m.Wired(), l) == []
    requires NoneEmpty(Tokens(text)) && Heap.Storable(Tokens(text))
    requires WiresDialog(f, m.Wired(), Run(m.Registry(), Fresh(), Tokens(text)), m.table)
    modifies m, m.stack, set l | l in m.table
    ensures m.Valid() && m.path == [] && m.table == Layers(f)
    ensures forall l :: l in m.table ==> DialogWired(f, old(m.Wired()), m.Wired(), l)
  {
    RoomForLayout(f, m.Wired(), Run(m.Registry(), Fresh(), Tokens(text)), m.table);
    assert m.tokens + Tokens(text) == Tokens(text);
    m.ConnectLayers(text);
  }

  // The fields of one layer after connecting.
  lemma LayerFields(m: Heap.LayerManager, f: Five<Heap.BaseLayer>, w: Wiring<Heap.BaseLayer>, l: Heap.BaseLayer)
    requires l in m.table && DialogWired(f, w, m.Wired(), l) && l !in w.under && Uppers(w, l) == []
    ensures l.uppers == DialogUppers(f, l) && Heap.ToOption(l.under) == DialogUnder(f, l)
  {
    assert Uppers(m.Wired(), l) == l.uppers;
  }

  /** What the dialog's constructor does with its layers: it registers them and connects its
      layout, and each of them then has exactly these layers above it and this one below. */
  method ConnectDialog() returns (m: Heap.LayerManager, f: Five<Heap.BaseLayer>)
    ensures m.Valid() && m.path == [] && Different(f)
    ensures f.ni.under == null && f.ni.uppers == [f.ethernet]
    ensures f.ethernet.under == f.ni && f.ethernet.uppers == [f.network, f.arp]
    ensures f.network.under == f.arp && f.network.uppers == [f.dlg]
    ensures f.dlg.under == f.network && f.dlg.uppers == []
    ensures f.arp.under == f.ethernet && f.arp.uppers == []
  {
    f := MakeLayers();
    m := RegisterLayers(f);
    ghost var w := m.Wired();
    UnlinkedLayers(m, f);
    DialogWiring(f, w, m.Registry(), DIALOG_LAYOUT, m.table);
    LayoutIsShort();
    TokensStorable(DIALOG_LAYOUT);
    ConnectLayout(m, f, DIALOG_LAYOUT);
    LayerFields(m, f, w, f.ni);
    LayerFields(m, f, w, f.ethernet);
    LayerFields(m, f, w, f.network);
    LayerFields(m, f, w, f.dlg);
    LayerFields(m, f, w, f.arp);
  }
}
