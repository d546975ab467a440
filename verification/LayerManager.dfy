/** CLayerManager and CBaseLayer with their fields (ARP/LayerManager.cpp, ARP/BaseLayer.cpp):
    the token list is a chain of heap nodes, the stack and the layer table are fixed arrays. */
module LayerManager {
  import opened Options
  import opened LayoutTokens
  import opened LayoutLinks

  class BaseLayer {
    const name: string
    var under: BaseLayer?
    // mp_aUpperLayer[..m_nUpperLayerCount]; the array has room for 255.
    var uppers: seq<BaseLayer>

    constructor (name: string)
      ensures this.name == name && under == null && uppers == []
    {
      this.name, under, uppers := name, null, [];
    }

    ghost function Under(): BaseLayer
      requires under != null
      reads this
    {
      under
    }

    method SetUpperLayer(upper: BaseLayer?)
      requires upper != null ==> |uppers| < MAX_LAYER_NUMBER
      modifies this`uppers
      ensures uppers == if upper == null then old(uppers) else old(uppers) + [upper]
    {
      if upper == null {
        return;
      }
      uppers := uppers + [upper];
    }

    method SetUnderLayer(under: BaseLayer?)
      modifies this`under
      ensures this.under == if under == null then old(this.under) else under
    {
      if under == null {
        return;
      }
      this.under := under;
    }

    method SetUpperUnderLayer(other: BaseLayer?)
      requires other != null ==> |uppers| < MAX_LAYER_NUMBER
      modifies this`uppers, (if other == null then {} else {other})`under
      ensures uppers == if other == null then old(uppers) else old(uppers) + [other]
      ensures other != null ==> other.under == this
    {
      if other == null {
        return;
      }
      SetUpperLayer(other);
      other.SetUnderLayer(this);
    }
  }

  class Node {
    const token: string
    var next: Node?

    constructor (token: string)
      ensures this.token == token && next == null
    {
      this.token, next := token, null;
    }
  }

  // NODE.token has 50 characters, the terminating NUL included.
  const TOKEN_SIZE := 50

  predicate Storable(ts: seq<string>) {
    forall k :: 0 <= k < |ts| ==> 0 < |ts[k]| < TOKEN_SIZE
  }

  lemma StorableCons(t: string, ts: seq<string>)
    requires Storable([t] + ts)
    ensures 0 < |t| < TOKEN_SIZE && Storable(ts)
  {
    assert ([t] + ts)[0] == t;
    assert forall k :: 0 <= k < |ts| ==> ts[k] == ([t] + ts)[k + 1];
  }

  lemma Shift(seen: seq<string>, buff: string, rest: seq<string>)
    ensures seen + ([buff] + rest) == seen + [buff] + rest
  {
  }

  // What one round of MakeList does to the tokens seen and the tokens still to come.
  lemma NextToken(total: seq<string>, seen: seq<string>, ahead: seq<string>,
                  list: string, p: nat, buff: string, space: nat) returns (rest: seq<string>)
    requires p <= |list| && space == StrChr(list, p, ' ') && buff == Scan(list, p)
    requires ahead == TokensFrom(list, p) && total == seen + ahead && Storable(ahead)
    ensures space == |list| ==> rest == []
    ensures space < |list| ==> rest == TokensFrom(list, space + 1)
    ensures total == seen + [buff] + rest && Storable(rest) && 0 < |buff| < TOKEN_SIZE
  {
    rest := if space == |list| then [] else TokensFrom(list, space + 1);
    TokensUnfold(list, p, rest);
    Shift(seen, buff, rest);
    StorableCons(buff, rest);
  }

  ghost function RegistryOf(table: seq<BaseLayer>): (reg: seq<Entry<BaseLayer>>)
    ensures |reg| == |table|
    ensures forall k :: 0 <= k < |table| ==> reg[k] == Entry(table[k].name, table[k])
  {
    seq(|table|, k requires 0 <= k < |table| => Entry(table[k].name, table[k]))
  }

  // The layer that a pointer stands for.
  function ToOption(layer: BaseLayer?): Option<BaseLayer> {
    if layer == null then None else Some(layer)
  }

  // The calls fill no layer's array of upper layers beyond its 255 entries.
  ghost predicate Roomy(table: seq<BaseLayer>, w: Wiring<BaseLayer>, calls: seq<Link<BaseLayer>>) {
    forall l :: l in table ==> |Uppers(w, l)| + |UpperCalls(calls, l)| <= MAX_LAYER_NUMBER
  }

  // The next call finds room if the whole run does.
  lemma RoomFor(reg: seq<Entry<BaseLayer>>, w: Wiring<BaseLayer>, o: Outcome<BaseLayer>,
                ts: seq<string>, table: seq<BaseLayer>)
    requires ts != [] && NoneEmpty(ts) && o.Linking? && Run(reg, o, ts).Linking? && LinkCalls(o.calls)
    requires Roomy(table, w, Run(reg, o, ts).calls)
    ensures Step(reg, o, ts[0]).Linking?
    ensures var more := Step(reg, o, ts[0]).calls;
            LinkCalls(more) && o.calls <= more && |more| <= |o.calls| + 1 &&
            (|more| > |o.calls| && more[|o.calls|].mode != '-' && more[|o.calls|].parent in table ==>
              |Uppers(Wire(w, o.calls), more[|o.calls|].parent)| < MAX_LAYER_NUMBER)
  {
    var next := Step(reg, o, ts[0]);
    LinkingBefore(reg, next, ts[1..]);
    CallsGrow(reg, next, ts[1..]);
    if |next.calls| > |o.calls| {
      var c := next.calls[|o.calls|];
      assert next.calls == o.calls + [c];
      WireIsProjection(w, o.calls, c.parent);
      UpperCallsGrow(next.calls, Run(reg, o, ts).calls, c.parent);
      assert next.calls[..|next.calls| - 1] == o.calls;
    }
  }

  lemma WireMore<L>(w: Wiring<L>, calls: seq<Link<L>>, more: seq<Link<L>>)
    requires calls <= more && |more| <= |calls| + 1
    ensures Wire(w, more) == if |more| == |calls| then Wire(w, calls) else Apply(Wire(w, calls), more[|calls|])
  {
    if |more| == |calls| {
      assert more == calls;
    } else {
      assert more[..|more| - 1] == calls;
    }
  }

  class LayerManager {
    var top: int
    const stack: array<BaseLayer?>
    var listHead: Node?
    var listTail: Node?
    var layerCount: nat
    const layers: array<BaseLayer?>

    // The layers on the stack, the chain of nodes with their tokens, the registered layers.
    ghost var path: seq<BaseLayer>
    ghost var nodes: seq<Node>
    ghost var tokens: seq<string>
    ghost var table: seq<BaseLayer>

    ghost predicate ValidStack()
      reads this`top, this`path, this`table, stack
    {
      && stack.Length == MAX_LAYER_NUMBER
      && |path| == top + 1 <= stack.Length
      && forall k :: 0 <= k < |path| ==> stack[k] == path[k] && path[k] in table
    }

    // The chain from listHead is exactly nodes, without a cycle, and listTail is its last node.
    ghost predicate ValidList()
      reads this`listHead, this`listTail, this`nodes, this`tokens, nodes
    {
      && |tokens| == |nodes| && (forall k :: 0 <= k < |nodes| ==> tokens[k] == nodes[k].token)
      && (forall i, j :: 0 <= i < j < |nodes| ==> nodes[i] != nodes[j])
      && (forall k {:trigger nodes[k].next} :: 0 <= k < |nodes| - 1 ==> nodes[k].next == nodes[k + 1])
      && (nodes == [] ==> listHead == null)
      && (nodes != [] ==> listHead == nodes[0] && listTail == nodes[|nodes| - 1] && listTail.next == null)
    }

    ghost predicate ValidTable()
      reads this`layerCount, this`table, layers
    {
      && layers.Length == MAX_LAYER_NUMBER
      && |table| == layerCount <= layers.Length
      && forall k :: 0 <= k < |table| ==> layers[k] == table[k]
    }

    ghost predicate Valid()
      reads this, stack, layers, nodes
    {
      layers != stack && ValidStack() && ValidList() && ValidTable()
    }

    ghost function Registry(): seq<Entry<BaseLayer>>
      reads this`table
    {
      RegistryOf(table)
    }

    // mp_UnderLayer and mp_aUpperLayer of the registered layers.
    ghost function Wired(): Wiring<BaseLayer>
      reads this`table, table
    {
      Wiring(map l | l in table && l.under != null :: l.Under(), map l | l in table :: l.uppers)
    }

    constructor ()
      ensures Valid() && fresh(stack) && fresh(layers)
      ensures path == [] && nodes == [] && tokens == [] && table == []
    {
      top, layerCount := -1, 0;
      listHead, listTail := null, null;
      stack := new BaseLayer?[MAX_LAYER_NUMBER](_ => null);
      layers := new BaseLayer?[MAX_LAYER_NUMBER](_ => null);
      path, nodes, tokens, table := [], [], [], [];
    }

    method AddLayer(layer: BaseLayer)
      requires Valid() && layerCount < MAX_LAYER_NUMBER
      modifies this`layerCount, this`table, layers
      ensures Valid() && table == old(table) + [layer]
    {
      layers[layerCount] := layer;
      layerCount := layerCount + 1;
      table := table + [layer];
    }

    method GetLayer(name: string) returns (layer: BaseLayer?)
      requires Valid()
      ensures Lookup(Registry(), name) == ToOption(layer)
      ensures layer != null ==> layer in table
    {
      ghost var reg := Registry();
      for i := 0 to layerCount
        invariant Lookup(reg, name) == Lookup(reg[i..], name)
      {
        assert reg[i..][1..] == reg[i + 1..];
        if name == layers[i].name {
          return layers[i];
        }
      }
      return null;
    }

    method AllocNode(name: string) returns (node: Node)
      requires |name| < TOKEN_SIZE
      ensures fresh(node) && node.token == name && node.next == null
    {
      node := new Node(name);
    }

    /** The constant-time append. */
    method AddNode(node: Node)
      requires Valid() && node.next == null && forall k :: 0 <= k < |nodes| ==> nodes[k] != node
      modifies this`listHead, this`listTail, this`nodes, this`tokens
      modifies (if nodes == [] then {} else {nodes[|nodes| - 1]})`next
      ensures Valid() && nodes == old(nodes) + [node] && tokens == old(tokens) + [node.token]
    {
      if listHead == null {
        listHead, listTail := node, node;
      } else {
        listTail.next := node;
        listTail := node;
      }
      nodes, tokens := nodes + [node], tokens + [node.token];
    }

    // The two calls with which MakeList stores a token.
    method AddToken(buff: string)
      requires Valid() && |buff| < TOKEN_SIZE
      modifies this`listHead, this`listTail, this`nodes, this`tokens
      modifies (if nodes == [] then {} else {nodes[|nodes| - 1]})`next
      ensures Valid() && tokens == old(tokens) + [buff]
      ensures old(nodes) <= nodes && |nodes| == |old(nodes)| + 1 && fresh(nodes[|nodes| - 1])
    {
      var node := AllocNode(buff);
      AddNode(node);
    }

    method Push(layer: BaseLayer)
      requires Valid() && |path| < MAX_LAYER_NUMBER && layer in table
      modifies this`top, this`path, stack
      ensures Valid() && path == old(path) + [layer]
    {
      if top >= MAX_LAYER_NUMBER {
        return;
      }
      top := top + 1;
      stack[top] := layer;
      path := path + [layer];
    }

    method Pop() returns (layer: BaseLayer?)
      requires Valid()
      modifies this`top, this`path, stack
      ensures Valid()
      ensures old(path) == [] ==> layer == null && path == []
      ensures old(path) != [] ==> layer == old(path)[|old(path)| - 1] && path == old(path)[..|old(path)| - 1]
    {
      if top < 0 {
        return null;
      }
      layer := stack[top];
      stack[top] := null;
      top := top - 1;
      path := path[..|path| - 1];
    }

    method Top() returns (layer: BaseLayer?)
      requires Valid()
      ensures layer == (if path == [] then null else path[|path| - 1]) && (layer != null ==> layer in table)
    {
      if top < 0 {
        return null;
      }
      return stack[top];
    }

    /** Appends the tokens of the layout; every scan must find one that fits a node. */
    method MakeList(list: string)
      requires Valid() && Storable(Tokens(list))
      modifies this`listHead, this`listTail, this`nodes, this`tokens
      modifies (if nodes == [] then {} else {nodes[|nodes| - 1]})`next
      ensures Valid() && tokens == old(tokens) + Tokens(list)
    {
      var p, atEnd := 0, false;  // atEnd: pcList is NULL + 1
      ghost var total, rest := tokens + Tokens(list), Tokens(list);
      while !atEnd
        invariant Valid() && p <= |list|
        invariant nodes == old(nodes) || (nodes != [] && fresh(nodes[|nodes| - 1]))
        invariant (atEnd ==> rest == []) && (!atEnd ==> rest == TokensFrom(list, p))
        invariant total == tokens + rest && Storable(rest)
        decreases !atEnd, |list| - p
      {
        var buff := Scan(list, p);
        var space := StrChr(list, p, ' ');
        ghost var seen, ahead := tokens, rest;
        rest := NextToken(total, seen, ahead, list, p, buff, space);
        AddToken(buff);
        atEnd, p := space == |list|, if space == |list| then p else space + 1;
      }
      assert tokens + [] == tokens;
    }

    // The switch of LinkLayer, on the layer that Top returns.
    method LinkItem(parent: BaseLayer?, mode: char, child: BaseLayer?)
      requires LinkMode(mode) ==> parent != null && parent in table
      requires child != null ==> child in table
      requires LinkMode(mode) && child != null && mode != '-' ==> |parent.uppers| < MAX_LAYER_NUMBER
      modifies set l | l in table
      ensures Wired() == if child == null || !LinkMode(mode) then old(Wired())
                         else Apply(old(Wired()), Link(parent, mode, child))
      ensures child != null && (mode == '*' || mode == '+') ==> parent.uppers == old(parent.uppers) + [child]
      ensures child != null && mode == '*' ==> child.under == parent
      ensures child != null && mode == '-' ==> parent.under == child
    {
      if mode == '*' {
        parent.SetUpperUnderLayer(child);
      } else if mode == '+' {
        parent.SetUpperLayer(child);
        assert Wired().under == old(Wired()).under;
      } else if mode == '-' {
        parent.SetUnderLayer(child);
      }
    }

    // The branches of LinkLayer for "(" and ")".
    method LinkBracket(token: string, layer: BaseLayer)
      requires Valid() && layer in table && token != "" && (token[0] == '(' || token[0] == ')')
      requires token[0] == '(' ==> |path| < MAX_LAYER_NUMBER
      modifies this`top, this`path, stack
      ensures Valid()
      ensures path == if token[0] == '(' then old(path) + [layer]
                      else if old(path) == [] then [] else old(path)[..|old(path)| - 1]
    {
      if token[0] == '(' {
        Push(layer);
      } else {
        var _ := Pop();
      }
    }

    // The branch of LinkLayer for a token that names a layer behind its mode character.
    method LinkNamed(token: string) returns (child: BaseLayer?)
      requires Valid() && token != ""
      requires LinkMode(token[0]) ==> path != []
      requires LinkMode(token[0]) && token[0] != '-' && Lookup(Registry(), token[1..]).Some? ==>
                 |path[|path| - 1].uppers| < MAX_LAYER_NUMBER
      modifies set l | l in table
      ensures Valid() && Lookup(Registry(), token[1..]) == ToOption(child) && (child != null ==> child in table)
      ensures Wired() == if child == null || !LinkMode(token[0]) then old(Wired())
                         else Apply(old(Wired()), Link(path[|path| - 1], token[0], child))
    {
      child := GetLayer(token[1..]);
      var parent := Top();
      LinkItem(parent, token[0], child);
    }

    ghost function Linked(layer: BaseLayer?, calls: seq<Link<BaseLayer>>): Outcome<BaseLayer>
      reads this`path
    {
      Linking(path, ToOption(layer), calls)
    }

    // One round of LinkLayer's loop.
    method LinkToken(token: string, layer: BaseLayer?, ghost calls: seq<Link<BaseLayer>>)
        returns (next: BaseLayer?, ghost more: seq<Link<BaseLayer>>)
      requires Valid() && token != "" && (layer != null ==> layer in table)
      requires Step(Registry(), Linked(layer, calls), token).Linking?
      requires var more := Step(Registry(), Linked(layer, calls), token).calls;
               |more| > |calls| && more[|calls|].mode != '-' ==> |more[|calls|].parent.uppers| < MAX_LAYER_NUMBER
      modifies this`top, this`path, stack, set l | l in table
      ensures Valid() && (next != null ==> next in table)
      ensures Linked(next, more) == Step(Registry(), old(Linked(layer, calls)), token)
      ensures calls <= more && |more| <= |calls| + 1
      ensures Wired() == if |more| == |calls| then old(Wired()) else Apply(old(Wired()), more[|calls|])
    {
      next, more := layer, calls;
      if layer == null {
        next := GetLayer(token);
      } else if token[0] == '(' || token[0] == ')' {
        LinkBracket(token, layer);
      } else {
        next := LinkNamed(token);
        if next != null && LinkMode(token[0]) {
          more := calls + [Link(path[|path| - 1], token[0], next)];
        }
      }
    }

    // The same round, inside a run that leads to a known result.
    method LinkNext(token: string, layer: BaseLayer?, ghost calls: seq<Link<BaseLayer>>,
                    ghost w: Wiring<BaseLayer>, ghost ts: seq<string>)
        returns (next: BaseLayer?, ghost more: seq<Link<BaseLayer>>)
      requires Valid() && (layer != null ==> layer in table)
      requires ts != [] && NoneEmpty(ts) && token == ts[0]
      requires Run(Registry(), Linked(layer, calls), ts).Linking?
      requires Roomy(table, w, Run(Registry(), Linked(layer, calls), ts).calls)
      requires LinkCalls(calls) && Wired() == Wire(w, calls)
      modifies this`top, this`path, stack, set l | l in table
      ensures Valid() && (next != null ==> next in table)
      ensures NoneEmpty(ts[1..])
      ensures Run(Registry(), Linked(next, more), ts[1..]) == Run(Registry(), old(Linked(layer, calls)), ts)
      ensures LinkCalls(more) && Wired() == Wire(w, more)
    {
      RoomFor(Registry(), w, Linked(layer, calls), ts, table);
      next, more := LinkToken(token, layer, calls);
      WireMore(w, calls, more);
    }

    /** Interprets the whole token list. The calls leave no layer with more upper layers than
        its array holds; then the wiring is what the calls make of the wiring before. */
    method LinkLayer(first: Node?)
      requires Valid() && first == listHead && NoneEmpty(tokens)
      requires Run(Registry(), Linked(null, []), tokens).Linking?
      requires Roomy(table, Wired(), Run(Registry(), Linked(null, []), tokens).calls)
      modifies this`top, this`path, stack, set l | l in table
      ensures Valid()
      ensures var r := Run(Registry(), old(Linked(null, [])), tokens);
              path == r.stack && Wired() == Wire(old(Wired()), r.calls)
    {
      ghost var k, calls: seq<Link<BaseLayer>>, ts, w := 0, [], tokens, Wired();
      ghost var r := Run(Registry(), Linked(null, []), tokens);
      var layer: BaseLayer? := null;
      var node := first;
      while node != null
        invariant Valid() && k <= |nodes| && (layer != null ==> layer in table)
        invariant (k == |nodes| ==> node == null) && (k < |nodes| ==> node == nodes[k])
        invariant ts == tokens[k..] && NoneEmpty(ts) && Run(Registry(), Linked(layer, calls), ts) == r
        invariant Wired() == Wire(w, calls) && LinkCalls(calls)
        decreases |nodes| - k
      {
        layer, calls := LinkNext(node.token, layer, calls, w, ts);
        ts, k := ts[1..], k + 1;
        node := node.next;
      }
    }

    /** Reads the layout and interprets the list, which still holds what earlier layouts left. */
    method ConnectLayers(list: string)
      requires Valid() && Storable(tokens + Tokens(list)) && NoneEmpty(tokens + Tokens(list))
      requires Run(Registry(), Linked(null, []), tokens + Tokens(list)).Linking?
      requires Roomy(table, Wired(), Run(Registry(), Linked(null, []), tokens + Tokens(list)).calls)
      modifies this`listHead, this`listTail, this`nodes, this`tokens
      modifies (if nodes == [] then {} else {nodes[|nodes| - 1]})`next
      modifies this`top, this`path, stack, set l | l in table
      ensures Valid() && tokens == old(tokens) + Tokens(list)
      ensures var r := Run(Registry(), old(Linked(null, [])), old(tokens) + Tokens(list));
              path == r.stack && Wired() == Wire(old(Wired()), r.calls)
    {
      assert Storable(Tokens(list)) by {
        assert forall k :: 0 <= k < |Tokens(list)| ==> Tokens(list)[k] == (tokens + Tokens(list))[|tokens| + k];
      }
      MakeList(list);
      assert Wired() == old(Wired()) && Linked(null, []) == old(Linked(null, []));
      LinkLayer(listHead);
    }

    /** The whole round trip on the heap: connecting the single-spaced text of a layer tree on
        a new manager adds exactly the tree's edges to the wiring and leaves the stack empty. */
    method ConnectTree(root: string, g: Group)
      requires Valid() && tokens == [] && path == []
      requires Word(root) && GroupSpelled(g) && Storable(PrintTree(root, g))
      requires Lookup(Registry(), root).Some? && GroupRegistered(Registry(), g)
      requires GroupDepth(g) <= MAX_LAYER_NUMBER
      requires Roomy(table, Wired(), GroupEdges(Registry(), Lookup(Registry(), root).value, g))
      modifies this`listHead, this`listTail, this`nodes, this`tokens
      modifies this`top, this`path, stack, set l | l in table
      ensures Valid() && path == []
      ensures Wired() == Wire(old(Wired()), GroupEdges(Registry(), Lookup(Registry(), root).value, g))
    {
      TreeTextLinks(Registry(), root, g);
      assert tokens + PrintTree(root, g) == PrintTree(root, g);
      ConnectLayers(Text(SingleSpaced(PrintTree(root, g))));
    }
  }
}
