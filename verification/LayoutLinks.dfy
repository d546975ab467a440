/** What LinkLayer does with a token list, as a stack machine on values
    (ARP/LayerManager.cpp), and the wiring its link calls leave behind (ARP/BaseLayer.cpp).
    L is the type of layers. */
module LayoutLinks {
  import opened Options
  import opened LayoutTokens

  const MAX_LAYER_NUMBER: nat := 0xff

  datatype Entry<L> = Entry(name: string, layer: L)

  // GetLayer: the first registered layer with that name.
  function Lookup<L>(reg: seq<Entry<L>>, name: string): Option<L> {
    if reg == [] then None
    else if reg[0].name == name then Some(reg[0].layer)
    else Lookup(reg[1..], name)
  }

  lemma {:induction false} LookupAt<L>(reg: seq<Entry<L>>, k: nat, name: string)
    requires k < |reg| && reg[k].name == name && forall j :: 0 <= j < k ==> reg[j].name != name
    ensures Lookup(reg, name) == Some(reg[k].layer)
  {
    if k > 0 {
      LookupAt(reg[1..], k - 1, name);
    }
  }

  /** A name is found if and only if it is registered, and then it is the first layer with it. */
  lemma {:induction false} LookupIsFirst<L>(reg: seq<Entry<L>>, name: string) returns (k: nat)
    ensures Lookup(reg, name) == None ==> forall j :: 0 <= j < |reg| ==> reg[j].name != name
    ensures Lookup(reg, name).Some? ==>
              && k < |reg| && reg[k].name == name && reg[k].layer == Lookup(reg, name).value
              && forall j :: 0 <= j < k ==> reg[j].name != name
  {
    k := 0;
    if reg != [] && reg[0].name != name {
      k := LookupIsFirst(reg[1..], name);
      assert forall j :: 0 < j < |reg| ==> reg[j] == reg[1..][j - 1];
      k := k + 1;
    }
  }

  // A setter called with a layer: '*' SetUpperUnderLayer, '+' SetUpperLayer, '-' SetUnderLayer.
  datatype Link<L> = Link(parent: L, mode: char, child: L)

  // Overrun: a push onto 255 entries, which writes behind mp_Stack.
  // NullParent: a setter called on the NULL that Top returns for an empty stack.
  datatype Outcome<L> =
    | Linking(stack: seq<L>, current: Option<L>, calls: seq<Link<L>>)
    | Overrun
    | NullParent

  predicate LinkMode(c: char) {
    c == '*' || c == '+' || c == '-'
  }

  // One round of LinkLayer's loop. The setters ignore a NULL argument.
  function Step<L>(reg: seq<Entry<L>>, o: Outcome<L>, token: string): Outcome<L>
    requires token != ""
  {
    if !o.Linking? then o
    else if o.current == None then o.(current := Lookup(reg, token))
    else if token[0] == '(' then
      if |o.stack| >= MAX_LAYER_NUMBER then Overrun else o.(stack := o.stack + [o.current.value])
    else if token[0] == ')' then
      if o.stack == [] then o else o.(stack := o.stack[..|o.stack| - 1])
    else
      var child := Lookup(reg, token[1..]);
      if !LinkMode(token[0]) then o.(current := child)
      else if o.stack == [] then NullParent
      else if child == None then o.(current := None)
      else
        var call := Link(o.stack[|o.stack| - 1], token[0], child.value);
        o.(current := child, calls := o.calls + [call])
  }

  function Run<L>(reg: seq<Entry<L>>, o: Outcome<L>, tokens: seq<string>): Outcome<L>
    requires NoneEmpty(tokens)
    decreases |tokens|
  {
    if tokens == [] then o else Run(reg, Step(reg, o, tokens[0]), tokens[1..])
  }

  // A manager nothing has been connected with yet.
  function Fresh<L>(): Outcome<L> {
    Linking([], None, [])
  }

  lemma {:induction false} RunConcat<L>(reg: seq<Entry<L>>, o: Outcome<L>, a: seq<string>, b: seq<string>)
    requires NoneEmpty(a) && NoneEmpty(b)
    ensures NoneEmpty(a + b) && Run(reg, o, a + b) == Run(reg, Run(reg, o, a), b)
    decreases |a|
  {
    if a == [] {
      assert a + b == b;
    } else {
      assert (a + b)[1..] == a[1..] + b;
      RunConcat(reg, Step(reg, o, a[0]), a[1..], b);
    }
  }

  lemma {:induction false} LinkingBefore<L>(reg: seq<Entry<L>>, o: Outcome<L>, tokens: seq<string>)
    requires NoneEmpty(tokens) && Run(reg, o, tokens).Linking?
    ensures o.Linking?
    decreases |tokens|
  {
    if tokens != [] {
      LinkingBefore(reg, Step(reg, o, tokens[0]), tokens[1..]);
    }
  }

  // A run only adds calls.
  lemma {:induction false} CallsGrow<L>(reg: seq<Entry<L>>, o: Outcome<L>, tokens: seq<string>)
    requires NoneEmpty(tokens) && o.Linking? && Run(reg, o, tokens).Linking?
    ensures o.calls <= Run(reg, o, tokens).calls
    decreases |tokens|
  {
    if tokens != [] {
      LinkingBefore(reg, Step(reg, o, tokens[0]), tokens[1..]);
      CallsGrow(reg, Step(reg, o, tokens[0]), tokens[1..]);
    }
  }

  // ---- The wiring the calls leave behind ----

  // mp_UnderLayer (absent: NULL) and mp_aUpperLayer of every layer.
  datatype Wiring<L(==)> = Wiring(under: map<L, L>, uppers: map<L, seq<L>>)

  function Uppers<L>(w: Wiring<L>, l: L): seq<L> {
    if l in w.uppers then w.uppers[l] else []
  }

  function AddUpper<L>(w: Wiring<L>, l: L, upper: L): Wiring<L> {
    w.(uppers := w.uppers[l := Uppers(w, l) + [upper]])
  }

  function SetUnder<L>(w: Wiring<L>, l: L, under: L): Wiring<L> {
    w.(under := w.under[l := under])
  }

  function Apply<L>(w: Wiring<L>, c: Link<L>): Wiring<L> {
    if c.mode == '*' then SetUnder(AddUpper(w, c.parent, c.child), c.child, c.parent)
    else if c.mode == '+' then AddUpper(w, c.parent, c.child)
    else SetUnder(w, c.parent, c.child)
  }

  function Wire<L>(w: Wiring<L>, calls: seq<Link<L>>): Wiring<L> {
    if calls == [] then w else Apply(Wire(w, calls[..|calls| - 1]), calls[|calls| - 1])
  }

  // The layers that the calls append to the upper layers of l, in order.
  function UpperCalls<L(==)>(calls: seq<Link<L>>, l: L): seq<L> {
    if calls == [] then [] else
      var c := calls[|calls| - 1];
      UpperCalls(calls[..|calls| - 1], l) + if c.parent == l && c.mode != '-' then [c.child] else []
  }

  lemma {:induction false} UpperCallsGrow<L>(a: seq<Link<L>>, b: seq<Link<L>>, l: L)
    requires a <= b
    ensures UpperCalls(a, l) <= UpperCalls(b, l)
    decreases |b|
  {
    if |a| < |b| {
      UpperCallsGrow(a, b[..|b| - 1], l);
    } else {
      assert a == b;
    }
  }

  // The last layer that the calls put under l.
  function LastUnder<L(==)>(calls: seq<Link<L>>, l: L): Option<L> {
    if calls == [] then None else
      var c := calls[|calls| - 1];
      if c.mode == '-' && c.parent == l then Some(c.child)
      else if c.mode == '*' && c.child == l then Some(c.parent)
      else LastUnder(calls[..|calls| - 1], l)
  }

  predicate LinkCalls<L>(calls: seq<Link<L>>) {
    forall k :: 0 <= k < |calls| ==> LinkMode(calls[k].mode)
  }

  // What one call does to a layer.
  lemma ApplyIs<L>(w: Wiring<L>, c: Link<L>, l: L)
    requires LinkMode(c.mode)
    ensures Uppers(Apply(w, c), l) == Uppers(w, l) + if c.parent == l && c.mode != '-' then [c.child] else []
    ensures var under := Apply(w, c).under;
            if c.mode == '-' && c.parent == l then l in under && under[l] == c.child
            else if c.mode == '*' && c.child == l then l in under && under[l] == c.parent
            else (l in under <==> l in w.under) && (l in w.under ==> under[l] == w.under[l])
  {
  }

  // What the calls do to a layer, given what was before.
  ghost predicate Projects<L>(w: Wiring<L>, calls: seq<Link<L>>, l: L) {
    && Uppers(Wire(w, calls), l) == Uppers(w, l) + UpperCalls(calls, l)
    && match LastUnder(calls, l)
       case None => (l in Wire(w, calls).under <==> l in w.under) &&
                    (l in w.under ==> Wire(w, calls).under[l] == w.under[l])
       case Some(under) => l in Wire(w, calls).under && Wire(w, calls).under[l] == under
  }

  /** Every layer ends up with its '*' and '+' children appended in order, and above the
      layer that was put under it last. */
  lemma {:induction false} WireIsProjection<L>(w: Wiring<L>, calls: seq<Link<L>>, l: L)
    requires LinkCalls(calls)
    ensures Projects(w, calls, l)
  {
    if calls != [] {
      var before, c := calls[..|calls| - 1], calls[|calls| - 1];
      assert LinkMode(c.mode);
      WireIsProjection(w, before, l);
      ApplyIs(Wire(w, before), c, l);
    }
  }

  // ---- Layer trees ----

  // The items of a group; every item may have one group of its own.
  datatype Forest = Empty | Item(mode: char, name: string, group: Group, next: Forest)
  datatype Group = NoGroup | Group(items: Forest)

  function Print(f: Forest): (ts: seq<string>)
    ensures NoneEmpty(ts)
  {
    match f
    case Empty => []
    case Item(m, n, g, next) => [[m] + n] + PrintGroup(g) + Print(next)
  }

  function PrintGroup(g: Group): (ts: seq<string>)
    ensures NoneEmpty(ts)
  {
    match g
    case NoGroup => []
    case Group(items) => ["("] + Print(items) + [")"]
  }

  // A whole layout: the root has no mode character.
  function PrintTree(root: string, g: Group): (ts: seq<string>)
    requires root != ""
    ensures NoneEmpty(ts)
  {
    [root] + PrintGroup(g)
  }

  // Groups inside groups.
  function Depth(f: Forest): nat {
    match f
    case Empty => 0
    case Item(m, n, g, next) => if GroupDepth(g) > Depth(next) then GroupDepth(g) else Depth(next)
  }

  function GroupDepth(g: Group): nat {
    match g
    case NoGroup => 0
    case Group(items) => 1 + Depth(items)
  }

  // Every name is registered and no mode character is a parenthesis.
  predicate Registered<L>(reg: seq<Entry<L>>, f: Forest) {
    match f
    case Empty => true
    case Item(m, n, g, next) =>
      m != '(' && m != ')' && Lookup(reg, n).Some? && GroupRegistered(reg, g) && Registered(reg, next)
  }

  predicate GroupRegistered<L>(reg: seq<Entry<L>>, g: Group) {
    match g
    case NoGroup => true
    case Group(items) => Registered(reg, items)
  }

  // One edge per item with a link mode, in preorder.
  function Edges<L>(reg: seq<Entry<L>>, parent: L, f: Forest): seq<Link<L>>
    requires Registered(reg, f)
  {
    match f
    case Empty => []
    case Item(m, n, g, next) =>
      var l := Lookup(reg, n).value;
      (if LinkMode(m) then [Link(parent, m, l)] else []) + GroupEdges(reg, l, g) + Edges(reg, parent, next)
  }

  function GroupEdges<L>(reg: seq<Entry<L>>, parent: L, g: Group): seq<Link<L>>
    requires GroupRegistered(reg, g)
  {
    match g
    case NoGroup => []
    case Group(items) => Edges(reg, parent, items)
  }

  // The layer named last, starting from l.
  function LastNamed<L>(reg: seq<Entry<L>>, l: L, f: Forest): L
    requires Registered(reg, f)
  {
    match f
    case Empty => l
    case Item(m, n, g, next) => LastNamed(reg, LastInGroup(reg, Lookup(reg, n).value, g), next)
  }

  function LastInGroup<L>(reg: seq<Entry<L>>, l: L, g: Group): L
    requires GroupRegistered(reg, g)
  {
    match g
    case NoGroup => l
    case Group(items) => LastNamed(reg, l, items)
  }

  function AfterForest<L>(reg: seq<Entry<L>>, o: Outcome<L>, f: Forest): Outcome<L>
    requires o.Linking? && o.stack != [] && o.current.Some? && Registered(reg, f)
  {
    if |o.stack| + Depth(f) > MAX_LAYER_NUMBER then Overrun else
      Linking(o.stack, Some(LastNamed(reg, o.current.value, f)),
              o.calls + Edges(reg, o.stack[|o.stack| - 1], f))
  }

  function AfterGroup<L>(reg: seq<Entry<L>>, o: Outcome<L>, g: Group): Outcome<L>
    requires o.Linking? && o.current.Some? && GroupRegistered(reg, g)
  {
    if |o.stack| + GroupDepth(g) > MAX_LAYER_NUMBER then Overrun else
      Linking(o.stack, Some(LastInGroup(reg, o.current.value, g)),
              o.calls + GroupEdges(reg, o.current.value, g))
  }

  lemma {:induction false} OverrunStays<L>(reg: seq<Entry<L>>, tokens: seq<string>)
    requires NoneEmpty(tokens)
    ensures Run(reg, Overrun, tokens) == Overrun
  {
    if tokens != [] {
      OverrunStays(reg, tokens[1..]);
    }
  }

  lemma RunOne<L>(reg: seq<Entry<L>>, o: Outcome<L>, token: string)
    requires token != ""
    ensures Run(reg, o, [token]) == Step(reg, o, token)
  {
    assert [token][1..] == [];
  }

  // Printing an item: its own token, its group, the items after it.
  lemma RunItem<L>(reg: seq<Entry<L>>, o: Outcome<L>, token: string, g: Group, next: Forest)
    requires token != ""
    ensures NoneEmpty([token] + PrintGroup(g) + Print(next))
    ensures Run(reg, o, [token] + PrintGroup(g) + Print(next)) ==
              Run(reg, Run(reg, Step(reg, o, token), PrintGroup(g)), Print(next))
  {
    RunConcat(reg, o, [token] + PrintGroup(g), Print(next));
    RunConcat(reg, o, [token], PrintGroup(g));
    RunOne(reg, o, token);
  }

  lemma StepItem<L>(reg: seq<Entry<L>>, o: Outcome<L>, m: char, n: string)
    requires o.Linking? && o.stack != [] && o.current.Some?
    requires m != '(' && m != ')' && Lookup(reg, n).Some?
    ensures var l := Lookup(reg, n).value;
            Step(reg, o, [m] + n) == Linking(o.stack, Some(l),
              o.calls + if LinkMode(m) then [Link(o.stack[|o.stack| - 1], m, l)] else [])
  {
    assert ([m] + n)[1..] == n;
  }

  lemma CallsOfItem<L>(reg: seq<Entry<L>>, calls: seq<Link<L>>, own: seq<Link<L>>, p: L, f: Forest)
    requires f.Item? && Registered(reg, f)
    requires own == if LinkMode(f.mode) then [Link(p, f.mode, Lookup(reg, f.name).value)] else []
    ensures calls + Edges(reg, p, f) ==
              calls + own + GroupEdges(reg, Lookup(reg, f.name).value, f.group) + Edges(reg, p, f.next)
  {
  }

  // The state after an item's own token.
  predicate ItemRead<L(==)>(reg: seq<Entry<L>>, o: Outcome<L>, o1: Outcome<L>, f: Forest)
    requires f.Item? && Registered(reg, f)
  {
    && o.Linking? && 0 < |o.stack| && o.current.Some?
    && o1 == Linking(o.stack, Lookup(reg, f.name), o.calls +
               if LinkMode(f.mode) then [Link(o.stack[|o.stack| - 1], f.mode, Lookup(reg, f.name).value)] else [])
  }

  lemma ItemTooDeep<L>(reg: seq<Entry<L>>, o: Outcome<L>, o1: Outcome<L>, f: Forest)
    requires f.Item? && Registered(reg, f) && ItemRead(reg, o, o1, f)
    requires AfterGroup(reg, o1, f.group) == Overrun
    ensures AfterForest(reg, o, f) == Overrun
  {
  }

  lemma ItemLinks<L>(reg: seq<Entry<L>>, o: Outcome<L>, o1: Outcome<L>, o2: Outcome<L>, f: Forest)
    requires f.Item? && Registered(reg, f) && ItemRead(reg, o, o1, f)
    requires AfterGroup(reg, o1, f.group) == o2 != Overrun
    ensures AfterForest(reg, o, f) == AfterForest(reg, o2, f.next)
  {
    var p, l := o.stack[|o.stack| - 1], Lookup(reg, f.name).value;
    CallsOfItem(reg, o.calls, if LinkMode(f.mode) then [Link(p, f.mode, l)] else [], p, f);
  }

  lemma AfterItem<L>(reg: seq<Entry<L>>, o: Outcome<L>, o1: Outcome<L>, f: Forest)
    requires f.Item? && Registered(reg, f) && ItemRead(reg, o, o1, f)
    ensures var o2 := AfterGroup(reg, o1, f.group);
            AfterForest(reg, o, f) == if o2 == Overrun then Overrun else AfterForest(reg, o2, f.next)
  {
    var o2 := AfterGroup(reg, o1, f.group);
    if o2 == Overrun {
      ItemTooDeep(reg, o, o1, f);
    } else {
      ItemLinks(reg, o, o1, o2, f);
    }
  }

  lemma {:induction false} RunForest<L>(reg: seq<Entry<L>>, o: Outcome<L>, f: Forest)
    requires o.Linking? && 0 < |o.stack| <= MAX_LAYER_NUMBER && o.current.Some? && Registered(reg, f)
    ensures Run(reg, o, Print(f)) == AfterForest(reg, o, f)
    decreases f
  {
    match f
    case Empty =>
    case Item(m, n, g, next) =>
      RunItem(reg, o, [m] + n, g, next);
      StepItem(reg, o, m, n);
      var o1 := Step(reg, o, [m] + n);
      RunGroup(reg, o1, g);
      AfterItem(reg, o, o1, f);
      var o2 := AfterGroup(reg, o1, g);
      if o2 == Overrun {
        OverrunStays(reg, Print(next));
      } else {
        RunForest(reg, o2, next);
      }
  }

  lemma {:induction false} RunGroup<L>(reg: seq<Entry<L>>, o: Outcome<L>, g: Group)
    requires o.Linking? && |o.stack| <= MAX_LAYER_NUMBER && o.current.Some? && GroupRegistered(reg, g)
    ensures Run(reg, o, PrintGroup(g)) == AfterGroup(reg, o, g)
    decreases g
  {
    match g
    case NoGroup =>
    case Group(items) =>
      RunConcat(reg, o, ["("] + Print(items), [")"]);
      RunConcat(reg, o, ["("], Print(items));
      RunOne(reg, o, "(");
      var o1 := Step(reg, o, "(");
      if o1 == Overrun {
        OverrunStays(reg, Print(items));
        OverrunStays(reg, [")"]);
      } else {
        RunForest(reg, o1, items);
        var o2 := AfterForest(reg, o1, items);
        RunOne(reg, o2, ")");
        if o2 != Overrun {
          assert o2.stack[..|o2.stack| - 1] == o.stack;
        }
      }
  }

  /** Linking a printed layer tree makes exactly the tree's edges, in preorder, and leaves
      the stack empty, if and only if groups nest at most 255 deep; otherwise it overruns
      the stack. */
  lemma TreeLinks<L>(reg: seq<Entry<L>>, root: string, g: Group)
    requires root != "" && Lookup(reg, root).Some? && GroupRegistered(reg, g)
    ensures Run(reg, Fresh(), PrintTree(root, g)) ==
              if GroupDepth(g) <= MAX_LAYER_NUMBER
              then Linking([], Some(LastInGroup(reg, Lookup(reg, root).value, g)),
                           GroupEdges(reg, Lookup(reg, root).value, g))
              else Overrun
  {
    RunConcat(reg, Fresh(), [root], PrintGroup(g));
    RunOne(reg, Fresh(), root);
    RunGroup(reg, Step(reg, Fresh(), root), g);
  }

  /** After an item with an unknown name the next token is looked up as a whole, its mode character
      or parenthesis included, and links nothing. */
  lemma AfterUnknownName<L>(reg: seq<Entry<L>>, o: Outcome<L>, m: char, n: string, next: string)
    requires o.Linking? && o.stack != [] && o.current.Some? && next != ""
    requires m != '(' && m != ')' && Lookup(reg, n) == None
    ensures Run(reg, o, [[m] + n, next]) == Linking(o.stack, Lookup(reg, next), o.calls)
  {
    assert ([m] + n)[1..] == n;
    assert [[m] + n, next][1..] == [next];
    RunOne(reg, Step(reg, o, [m] + n), next);
  }

  // n groups inside one another.
  function Nest(n: nat): Group {
    if n == 0 then NoGroup else Group(Item('*', "A", Nest(n - 1), Empty))
  }

  lemma {:induction false} NestIs<L>(reg: seq<Entry<L>>, n: nat)
    requires Lookup(reg, "A").Some?
    ensures GroupDepth(Nest(n)) == n && GroupRegistered(reg, Nest(n))
  {
    if n > 0 {
      NestIs(reg, n - 1);
    }
  }

  /** One group more than the stack has entries is enough to write behind it. */
  lemma TooDeep<L>(reg: seq<Entry<L>>, root: string, n: nat)
    requires root == "A" && Lookup(reg, root).Some? && n == MAX_LAYER_NUMBER + 1
    ensures Run(reg, Fresh(), PrintTree(root, Nest(n))) == Overrun
  {
    NestIs(reg, n);
    TreeLinks(reg, root, Nest(n));
  }

  // ---- The stack while linking ----

  // The layers whose groups are open after the first k tokens of a printed forest or group.
  function OpenIn<L>(reg: seq<Entry<L>>, f: Forest, k: nat): seq<L>
    requires Registered(reg, f) && k <= |Print(f)|
    decreases f
  {
    if k == 0 then [] else
      var Item(m, n, g, next) := f;
      if k - 1 <= |PrintGroup(g)| then OpenInGroup(reg, Lookup(reg, n).value, g, k - 1)
      else OpenIn(reg, next, k - 1 - |PrintGroup(g)|)
  }

  function OpenInGroup<L>(reg: seq<Entry<L>>, l: L, g: Group, k: nat): seq<L>
    requires GroupRegistered(reg, g) && k <= |PrintGroup(g)|
    decreases g
  {
    if k == 0 || k == |PrintGroup(g)| then [] else [l] + OpenIn(reg, g.items, k - 1)
  }

  // After some tokens the machine is still linking, and the stack has grown by these layers.
  ghost predicate Grown<L>(reg: seq<Entry<L>>, o: Outcome<L>, tokens: seq<string>, open: seq<L>)
    requires o.Linking?
  {
    && NoneEmpty(tokens)
    && var r := Run(reg, o, tokens);
       r.Linking? && r.current.Some? && r.stack == o.stack + open
  }

  // Inside the group of the first item, and after it.
  lemma GrownInItem<L>(reg: seq<Entry<L>>, o: Outcome<L>, f: Forest, ts: seq<string>, open: seq<L>)
    requires o.Linking? && o.stack != [] && o.current.Some? && Registered(reg, f) && f.Item?
    requires var o1 := Step(reg, o, [f.mode] + f.name); o1.Linking? && Grown(reg, o1, ts, open)
    ensures Grown(reg, o, [[f.mode] + f.name] + ts, open)
  {
    StepItem(reg, o, f.mode, f.name);
    RunOne(reg, o, [f.mode] + f.name);
    RunConcat(reg, o, [[f.mode] + f.name], ts);
  }

  lemma GrownAfterItem<L>(reg: seq<Entry<L>>, o: Outcome<L>, f: Forest, ts: seq<string>, open: seq<L>)
    requires o.Linking? && o.stack != [] && o.current.Some? && Registered(reg, f) && f.Item?
    requires |o.stack| + Depth(f) <= MAX_LAYER_NUMBER
    requires var o2 := AfterGroup(reg, Step(reg, o, [f.mode] + f.name), f.group);
             o2.Linking? && Grown(reg, o2, ts, open)
    ensures Grown(reg, o, [[f.mode] + f.name] + PrintGroup(f.group) + ts, open)
  {
    var o1 := Step(reg, o, [f.mode] + f.name);
    StepItem(reg, o, f.mode, f.name);
    RunOne(reg, o, [f.mode] + f.name);
    RunGroup(reg, o1, f.group);
    RunConcat(reg, o, [[f.mode] + f.name], PrintGroup(f.group));
    RunConcat(reg, o, [[f.mode] + f.name] + PrintGroup(f.group), ts);
  }

  lemma {:induction false} ForestStack<L>(reg: seq<Entry<L>>, o: Outcome<L>, f: Forest, k: nat)
    requires o.Linking? && o.stack != [] && o.current.Some? && Registered(reg, f)
    requires |o.stack| + Depth(f) <= MAX_LAYER_NUMBER && k <= |Print(f)|
    ensures Grown(reg, o, Print(f)[..k], OpenIn(reg, f, k))
    decreases f
  {
    if k == 0 {
      assert Print(f)[..k] == [];
    } else {
      var Item(m, n, g, next) := f;
      var o1, j := Step(reg, o, [m] + n), k - 1;
      StepItem(reg, o, m, n);
      if j <= |PrintGroup(g)| {
        assert Print(f)[..k] == [[m] + n] + PrintGroup(g)[..j];
        GroupStack(reg, o1, g, j);
        GrownInItem(reg, o, f, PrintGroup(g)[..j], OpenIn(reg, f, k));
      } else {
        var i := j - |PrintGroup(g)|;
        assert Print(f)[..k] == [[m] + n] + PrintGroup(g) + Print(next)[..i];
        ForestStack(reg, AfterGroup(reg, o1, g), next, i);
        GrownAfterItem(reg, o, f, Print(next)[..i], OpenIn(reg, f, k));
      }
    }
  }

  lemma {:induction false} GroupStack<L>(reg: seq<Entry<L>>, o: Outcome<L>, g: Group, k: nat)
    requires o.Linking? && o.current.Some? && GroupRegistered(reg, g)
    requires |o.stack| + GroupDepth(g) <= MAX_LAYER_NUMBER && k <= |PrintGroup(g)|
    ensures Grown(reg, o, PrintGroup(g)[..k], OpenInGroup(reg, o.current.value, g, k))
    decreases g
  {
    if k == 0 {
      assert PrintGroup(g)[..k] == [];
    } else if k == |PrintGroup(g)| {
      assert PrintGroup(g)[..k] == PrintGroup(g);
      RunGroup(reg, o, g);
    } else {
      var o1 := Step(reg, o, "(");
      assert PrintGroup(g)[..k] == ["("] + Print(g.items)[..k - 1];
      ForestStack(reg, o1, g.items, k - 1);
      RunOne(reg, o, "(");
      RunConcat(reg, o, ["("], Print(g.items)[..k - 1]);
    }
  }

  lemma NothingBefore<L>(s: seq<L>)
    ensures [] + s == s
  {
  }

  // After the root and the first k tokens of its group.
  lemma TreeStack<L>(reg: seq<Entry<L>>, root: string, g: Group, k: nat, ts: seq<string>)
    requires root != "" && Lookup(reg, root).Some? && GroupRegistered(reg, g)
    requires GroupDepth(g) <= MAX_LAYER_NUMBER && k <= |PrintGroup(g)| && ts == [root] + PrintGroup(g)[..k]
    ensures NoneEmpty(ts)
    ensures var r := Run(reg, Fresh(), ts);
            r.Linking? && r.stack == OpenInGroup(reg, Lookup(reg, root).value, g, k)
  {
    var o1 := Step(reg, Fresh(), root);
    RunOne(reg, Fresh(), root);
    GroupStack(reg, o1, g, k);
    RunConcat(reg, Fresh(), [root], PrintGroup(g)[..k]);
    NothingBefore(OpenInGroup(reg, Lookup(reg, root).value, g, k));
  }

  lemma OpenBeforeToken<L>(reg: seq<Entry<L>>, l: L, root: string, g: Group, k: nat)
    requires root != "" && GroupRegistered(reg, g) && k <= |PrintGroup(g)|
    ensures k + 1 < |PrintTree(root, g)| && PrintTree(root, g)[k + 1] != "(" ==> OpenInGroup(reg, l, g, k) != []
  {
    assert PrintGroup(g) != [] ==> PrintGroup(g)[0] == "(";
  }

  /** While a tree with at most 255 nested groups is linked, the stack is the path of the
      groups that are open, from the root down; so it never exceeds its 255 entries, and
      Top and Pop, which every other token than "(" calls, never meet it empty. */
  lemma StackIsOpenPath<L>(reg: seq<Entry<L>>, root: string, g: Group, k: nat)
    requires root != "" && Lookup(reg, root).Some? && GroupRegistered(reg, g)
    requires GroupDepth(g) <= MAX_LAYER_NUMBER && 1 <= k <= |PrintTree(root, g)|
    ensures NoneEmpty(PrintTree(root, g)[..k])
    ensures var r := Run(reg, Fresh(), PrintTree(root, g)[..k]);
            && r.Linking? && r.stack == OpenInGroup(reg, Lookup(reg, root).value, g, k - 1)
            && |r.stack| <= MAX_LAYER_NUMBER
            && (k < |PrintTree(root, g)| && PrintTree(root, g)[k] != "(" ==> r.stack != [])
  {
    assert PrintTree(root, g)[..k] == [root] + PrintGroup(g)[..k - 1];
    TreeStack(reg, root, g, k - 1, PrintTree(root, g)[..k]);
    OpenWithinDepth(reg, Lookup(reg, root).value, g, k - 1);
    OpenBeforeToken(reg, Lookup(reg, root).value, root, g, k - 1);
  }

  lemma {:induction false} OpenWithinDepth<L>(reg: seq<Entry<L>>, l: L, g: Group, k: nat)
    requires GroupRegistered(reg, g) && k <= |PrintGroup(g)|
    ensures |OpenInGroup(reg, l, g, k)| <= GroupDepth(g)
    decreases g
  {
    if 0 < k < |PrintGroup(g)| {
      OpenWithinForest(reg, g.items, k - 1);
    }
  }

  lemma {:induction false} OpenWithinForest<L>(reg: seq<Entry<L>>, f: Forest, k: nat)
    requires Registered(reg, f) && k <= |Print(f)|
    ensures |OpenIn(reg, f, k)| <= Depth(f)
    decreases f
  {
    if k > 0 {
      var Item(m, n, g, next) := f;
      if k - 1 <= |PrintGroup(g)| {
        OpenWithinDepth(reg, Lookup(reg, n).value, g, k - 1);
      } else {
        OpenWithinForest(reg, next, k - 1 - |PrintGroup(g)|);
      }
    }
  }

  // ---- From the text ----

  predicate Spelled(f: Forest) {
    match f
    case Empty => true
    case Item(m, n, g, next) => !Blank(m) && NoBlank(n, 0, |n|) && GroupSpelled(g) && Spelled(next)
  }

  predicate GroupSpelled(g: Group) {
    match g
    case NoGroup => true
    case Group(items) => Spelled(items)
  }

  lemma {:induction false} PrintsWords(f: Forest)
    requires Spelled(f)
    ensures forall k :: 0 <= k < |Print(f)| ==> Word(Print(f)[k])
    decreases f
  {
    match f
    case Empty =>
    case Item(m, n, g, next) =>
      assert forall x :: 0 < x < |[m] + n| ==> ([m] + n)[x] == n[x - 1];
      assert Word([m] + n);
      PrintsGroupWords(g);
      PrintsWords(next);
  }

  lemma {:induction false} PrintsGroupWords(g: Group)
    requires GroupSpelled(g)
    ensures forall k :: 0 <= k < |PrintGroup(g)| ==> Word(PrintGroup(g)[k])
    decreases g
  {
    match g
    case NoGroup =>
    case Group(items) =>
      PrintsWords(items);
      assert Word("(") && Word(")");
  }

  /** The round trip on texts: tokenising and linking the single-spaced text of a layer tree
      makes exactly the tree's edges, if and only if its groups nest at most 255 deep. */
  lemma TreeTextLinks<L>(reg: seq<Entry<L>>, root: string, g: Group)
    requires Word(root) && GroupSpelled(g)
    requires Lookup(reg, root).Some? && GroupRegistered(reg, g)
    ensures Tokens(Text(SingleSpaced(PrintTree(root, g)))) == PrintTree(root, g)
    ensures var r := Run(reg, Fresh(), Tokens(Text(SingleSpaced(PrintTree(root, g)))));
            if GroupDepth(g) <= MAX_LAYER_NUMBER
            then r.Linking? && r.stack == [] && r.calls == GroupEdges(reg, Lookup(reg, root).value, g)
            else r == Overrun
  {
    PrintsGroupWords(g);
    ReadingBack(SingleSpaced(PrintTree(root, g)));
    TreeLinks(reg, root, g);
  }
}
