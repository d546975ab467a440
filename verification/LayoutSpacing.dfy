/** Which extra spaces in a layout text change the wiring that ConnectLayers leaves behind
    (ARP/LayerManager.cpp). */
module LayoutSpacing {
  import opened Options
  import opened LayoutTokens
  import opened LayoutLinks

  predicate Parenthesis(t: string)
    requires t != ""
  {
    t[0] == '(' || t[0] == ')'
  }

  predicate UpperItem(t: string)
    requires t != ""
  {
    t[0] == '*' || t[0] == '+'
  }

  // Every item names a registered layer.
  predicate Named<L>(reg: seq<Entry<L>>, ws: seq<string>)
    requires NoneEmpty(ws)
  {
    forall k :: 0 <= k < |ws| && !Parenthesis(ws[k]) ==> Lookup(reg, ws[k][1..]).Some?
  }

  predicate NonEmptyWords(l: Layout)
    ensures NonEmptyWords(l) ==> NoneEmpty(Words(l)) && NoneEmpty(Repeated(l))
  {
    match l
    case Last(w) => w != ""
    case Then(w, r) => w != "" && NonEmptyWords(r)
    case Space(r) => NonEmptyWords(r)
  }

  // Extra spaces stand before items only.
  predicate ExtraBeforeItems(l: Layout)
    requires NonEmptyWords(l)
  {
    match l
    case Last(w) => true
    case Then(w, r) => ExtraBeforeItems(r)
    case Space(r) => !Parenthesis(Words(r)[0]) && ExtraBeforeItems(r)
  }

  predicate ExtraBeforeUpper(l: Layout)
    requires NonEmptyWords(l)
  {
    match l
    case Last(w) => false
    case Then(w, r) => ExtraBeforeUpper(r)
    case Space(r) => UpperItem(Words(r)[0]) || ExtraBeforeUpper(r)
  }

  predicate Harmless(l: Layout) {
    WellSpelled(l) && NonEmptyWords(l) && ExtraBeforeItems(l) && !ExtraBeforeUpper(l)
  }

  // The same run as far as the wiring can tell.
  ghost predicate Same<L>(w: Wiring<L>, a: Outcome<L>, b: Outcome<L>) {
    if a.Linking? && b.Linking?
    then a.stack == b.stack && a.current == b.current && Wire(w, a.calls) == Wire(w, b.calls)
    else a == b
  }

  predicate Ready<L>(o: Outcome<L>) {
    o.Linking? ==> o.current.Some?
  }

  lemma WireSnoc<L>(w: Wiring<L>, calls: seq<Link<L>>, c: Link<L>)
    ensures Wire(w, calls + [c]) == Apply(Wire(w, calls), c)
  {
    assert (calls + [c])[..|calls|] == calls;
  }

  // The call that a token makes, if any; it depends on the stack and the current layer only.
  function CallOf<L>(reg: seq<Entry<L>>, stack: seq<L>, current: Option<L>, t: string): (c: Option<Link<L>>)
    requires t != ""
  {
    var child := Lookup(reg, t[1..]);
    if current == None || Parenthesis(t) || !LinkMode(t[0]) || stack == [] || child == None then None
    else Some(Link(stack[|stack| - 1], t[0], child.value))
  }

  lemma StepCalls<L>(reg: seq<Entry<L>>, o: Outcome<L>, t: string)
    requires t != "" && o.Linking? && Step(reg, o, t).Linking?
    ensures var c := CallOf(reg, o.stack, o.current, t);
            Step(reg, o, t).calls == o.calls + if c.Some? then [c.value] else []
  {
  }

  lemma StepSame<L>(reg: seq<Entry<L>>, w: Wiring<L>, a: Outcome<L>, b: Outcome<L>, t: string)
    requires t != "" && Same(w, a, b)
    ensures Same(w, Step(reg, a, t), Step(reg, b, t))
  {
    if a.Linking? && b.Linking? && Step(reg, a, t).Linking? {
      StepCalls(reg, a, t);
      StepCalls(reg, b, t);
      var c := CallOf(reg, a.stack, a.current, t);
      if c.Some? {
        WireSnoc(w, a.calls, c.value);
        WireSnoc(w, b.calls, c.value);
      }
    }
  }

  // A repeated under-link, or an item without a link mode, does nothing new.
  lemma StepTwice<L>(reg: seq<Entry<L>>, w: Wiring<L>, a: Outcome<L>, t: string)
    requires t != "" && Ready(a) && !Parenthesis(t) && !UpperItem(t) && Lookup(reg, t[1..]).Some?
    ensures Same(w, Step(reg, Step(reg, a, t), t), Step(reg, a, t))
  {
    if a.Linking? && a.stack != [] && LinkMode(t[0]) {
      var c := Link(a.stack[|a.stack| - 1], t[0], Lookup(reg, t[1..]).value);
      WireSnoc(w, a.calls, c);
      WireSnoc(w, a.calls + [c], c);
    }
  }

  lemma RunHead<L>(reg: seq<Entry<L>>, o: Outcome<L>, t: string, ts: seq<string>)
    requires t != "" && NoneEmpty(ts)
    ensures NoneEmpty([t] + ts) && Run(reg, o, [t] + ts) == Run(reg, Step(reg, o, t), ts)
  {
    assert ([t] + ts)[1..] == ts;
  }

  lemma NamedTail<L>(reg: seq<Entry<L>>, ws: seq<string>)
    requires NoneEmpty(ws) && |ws| > 0 && Named(reg, ws)
    ensures NoneEmpty(ws[1..]) && Named(reg, ws[1..])
    ensures !Parenthesis(ws[0]) ==> Lookup(reg, ws[0][1..]).Some?
  {
    assert forall k :: 0 <= k < |ws[1..]| ==> ws[1..][k] == ws[k + 1];
  }

  lemma {:induction false} HarmlessRun<L>(reg: seq<Entry<L>>, w: Wiring<L>, a: Outcome<L>, b: Outcome<L>, l: Layout)
    requires NonEmptyWords(l) && Named(reg, Words(l)) && ExtraBeforeItems(l) && !ExtraBeforeUpper(l)
    requires Ready(a) && Ready(b)
    requires Same(w, Step(reg, a, Words(l)[0]), Step(reg, b, Words(l)[0]))
    ensures Same(w, Run(reg, a, Repeated(l)), Run(reg, b, Words(l)))
    decreases l
  {
    var t := Words(l)[0];
    NamedTail(reg, Words(l));
    match l
    case Last(w') =>
      RunOne(reg, a, t);
      RunOne(reg, b, t);
    case Then(w', r) =>
      RunHead(reg, a, t, Repeated(r));
      RunHead(reg, b, t, Words(r));
      StepSame(reg, w, Step(reg, a, t), Step(reg, b, t), Words(r)[0]);
      assert Words(l)[1..] == Words(r);
      HarmlessRun(reg, w, Step(reg, a, t), Step(reg, b, t), r);
    case Space(r) =>
      RunHead(reg, a, t, Repeated(r));
      StepTwice(reg, w, a, t);
      HarmlessRun(reg, w, Step(reg, a, t), b, r);
  }

  // a has appended at least the upper layers that b has, and somewhere more if strict.
  ghost predicate MoreCalls<L(!new)>(a: seq<Link<L>>, b: seq<Link<L>>, strict: bool) {
    && (forall p :: |UpperCalls(a, p)| >= |UpperCalls(b, p)|)
    && (strict ==> exists p :: |UpperCalls(a, p)| > |UpperCalls(b, p)|)
  }

  ghost predicate More<L(!new)>(a: Outcome<L>, b: Outcome<L>, strict: bool) {
    && a.Linking? && b.Linking? && a.stack == b.stack && a.current == b.current
    && MoreCalls(a.calls, b.calls, strict)
  }

  lemma UpperCallsSnoc<L>(calls: seq<Link<L>>, c: Link<L>, p: L)
    ensures |UpperCalls(calls + [c], p)|
         == |UpperCalls(calls, p)| + if c.parent == p && c.mode != '-' then 1 else 0
  {
    assert (calls + [c])[..|calls|] == calls;
  }

  lemma MoreCallsSnoc<L(!new)>(a: seq<Link<L>>, b: seq<Link<L>>, c: Link<L>, strict: bool)
    requires MoreCalls(a, b, strict)
    ensures MoreCalls(a + [c], b + [c], strict)
  {
    forall p
      ensures |UpperCalls(a + [c], p)| - |UpperCalls(b + [c], p)| == |UpperCalls(a, p)| - |UpperCalls(b, p)|
    {
      UpperCallsSnoc(a, c, p);
      UpperCallsSnoc(b, c, p);
    }
    if strict {
      var p :| |UpperCalls(a, p)| > |UpperCalls(b, p)|;
      assert |UpperCalls(a + [c], p)| > |UpperCalls(b + [c], p)|;
    }
  }

  lemma StepMore<L(!new)>(reg: seq<Entry<L>>, a: Outcome<L>, b: Outcome<L>, t: string, strict: bool)
    requires t != "" && More(a, b, strict) && Step(reg, b, t).Linking?
    ensures More(Step(reg, a, t), Step(reg, b, t), strict)
  {
    StepCalls(reg, a, t);
    StepCalls(reg, b, t);
    var c := CallOf(reg, a.stack, a.current, t);
    if c.Some? {
      MoreCallsSnoc(a.calls, b.calls, c.value, strict);
    }
  }

  lemma StepAgainMore<L(!new)>(reg: seq<Entry<L>>, a: Outcome<L>, t: string)
    requires t != "" && a.Linking? && Ready(a) && !Parenthesis(t) && Lookup(reg, t[1..]).Some?
    requires Step(reg, a, t).Linking?
    ensures More(Step(reg, Step(reg, a, t), t), Step(reg, a, t), UpperItem(t))
  {
    var a1 := Step(reg, a, t);
    var a2 := Step(reg, a1, t);
    if LinkMode(t[0]) {
      var c := Link(a.stack[|a.stack| - 1], t[0], Lookup(reg, t[1..]).value);
      assert a2.calls == a1.calls + [c];
      forall p
        ensures |UpperCalls(a2.calls, p)|
             == |UpperCalls(a1.calls, p)| + if c.parent == p && c.mode != '-' then 1 else 0
      {
        UpperCallsSnoc(a1.calls, c, p);
      }
      if UpperItem(t) {
        assert |UpperCalls(a2.calls, c.parent)| > |UpperCalls(a1.calls, c.parent)|;
      }
    }
  }

  lemma MoreTrans<L(!new)>(a: Outcome<L>, b: Outcome<L>, c: Outcome<L>, s: bool, t: bool)
    requires More(a, b, s) && More(b, c, t)
    ensures More(a, c, s || t)
  {
    if s {
      var p :| |UpperCalls(a.calls, p)| > |UpperCalls(b.calls, p)|;
      assert |UpperCalls(a.calls, p)| > |UpperCalls(c.calls, p)|;
    }
    if t {
      var p :| |UpperCalls(b.calls, p)| > |UpperCalls(c.calls, p)|;
      assert |UpperCalls(a.calls, p)| > |UpperCalls(c.calls, p)|;
    }
  }

  lemma {:induction false} CountedRun<L(!new)>(
      reg: seq<Entry<L>>, a: Outcome<L>, b: Outcome<L>, l: Layout, strict: bool)
    requires NonEmptyWords(l) && Named(reg, Words(l)) && ExtraBeforeItems(l)
    requires a.Linking? && Ready(a) && Ready(b) && Run(reg, b, Words(l)).Linking?
    requires More(Step(reg, a, Words(l)[0]), Step(reg, b, Words(l)[0]), strict)
    ensures More(Run(reg, a, Repeated(l)), Run(reg, b, Words(l)), strict || ExtraBeforeUpper(l))
    decreases l
  {
    var t := Words(l)[0];
    NamedTail(reg, Words(l));
    match l
    case Last(w') =>
      RunOne(reg, a, t);
      RunOne(reg, b, t);
    case Then(w', r) =>
      var a1, b1 := Step(reg, a, t), Step(reg, b, t);
      RunHead(reg, a, t, Repeated(r));
      RunHead(reg, b, t, Words(r));
      assert Words(l)[1..] == Words(r);
      RunHead(reg, b1, Words(r)[0], Words(r)[1..]);
      assert [Words(r)[0]] + Words(r)[1..] == Words(r);
      LinkingBefore(reg, Step(reg, b1, Words(r)[0]), Words(r)[1..]);
      StepMore(reg, a1, b1, Words(r)[0], strict);
      CountedRun(reg, a1, b1, r, strict);
    case Space(r) =>
      var a1 := Step(reg, a, t);
      RunHead(reg, a, t, Repeated(r));
      StepAgainMore(reg, a, t);
      MoreTrans(Step(reg, a1, t), a1, Step(reg, b, t), UpperItem(t), strict);
      CountedRun(reg, a1, b, r, UpperItem(t) || strict);
  }

  lemma {:induction false} RunLinkCalls<L>(reg: seq<Entry<L>>, o: Outcome<L>, tokens: seq<string>)
    requires NoneEmpty(tokens) && (o.Linking? ==> LinkCalls(o.calls))
    ensures Run(reg, o, tokens).Linking? ==> LinkCalls(Run(reg, o, tokens).calls)
    decreases |tokens|
  {
    if tokens != [] {
      RunLinkCalls(reg, Step(reg, o, tokens[0]), tokens[1..]);
    }
  }

  lemma MoreIsNotSame<L(!new)>(w: Wiring<L>, a: Outcome<L>, b: Outcome<L>)
    requires More(a, b, true) && LinkCalls(a.calls) && LinkCalls(b.calls)
    ensures !Same(w, a, b)
  {
    var p :| |UpperCalls(a.calls, p)| > |UpperCalls(b.calls, p)|;
    WireIsProjection(w, a.calls, p);
    WireIsProjection(w, b.calls, p);
  }

  // Both texts tokenised, and their runs from the root on.
  lemma SpacedTexts<L>(reg: seq<Entry<L>>, root: string, l: Layout)
    requires Word(root) && WellSpelled(l) && NonEmptyWords(l)
    ensures NoneEmpty([root] + Words(l)) && NoneEmpty([root] + Repeated(l))
    ensures Tokens(Text(SingleSpaced([root] + Words(l)))) == [root] + Words(l)
    ensures Tokens(Text(Then(root, l))) == [root] + Repeated(l)
    ensures var o := Step(reg, Fresh(), root);
            && Run(reg, Fresh(), [root] + Repeated(l)) == Run(reg, o, Repeated(l))
            && Run(reg, Fresh(), [root] + Words(l)) == Run(reg, o, Words(l))
  {
    ReadingBack(Then(root, l));
    SpelledWords(l);
    ReadingBack(SingleSpaced([root] + Words(l)));
    RunHead(reg, Fresh(), root, Repeated(l));
    RunHead(reg, Fresh(), root, Words(l));
  }

  // Without extra spaces before '*' and '+' items the wiring is the same.
  lemma HarmlessSpaces<L>(reg: seq<Entry<L>>, w: Wiring<L>, root: string, l: Layout)
    requires Word(root) && Harmless(l) && Lookup(reg, root).Some? && Named(reg, Words(l))
    ensures NoneEmpty([root] + Words(l)) && NoneEmpty([root] + Repeated(l))
    ensures Tokens(Text(Then(root, l))) == [root] + Repeated(l)
    ensures Same(w, Run(reg, Fresh(), [root] + Repeated(l)), Run(reg, Fresh(), [root] + Words(l)))
  {
    SpacedTexts(reg, root, l);
    HarmlessRun(reg, w, Step(reg, Fresh(), root), Step(reg, Fresh(), root), l);
  }

  // And one of them changes it.
  lemma HarmfulSpaces<L(!new)>(reg: seq<Entry<L>>, w: Wiring<L>, o: Outcome<L>, l: Layout)
    requires NonEmptyWords(l) && Named(reg, Words(l)) && ExtraBeforeItems(l) && ExtraBeforeUpper(l)
    requires o.Linking? && o.current.Some? && LinkCalls(o.calls) && Run(reg, o, Words(l)).Linking?
    ensures !Same(w, Run(reg, o, Repeated(l)), Run(reg, o, Words(l)))
  {
    RunHead(reg, o, Words(l)[0], Words(l)[1..]);
    assert [Words(l)[0]] + Words(l)[1..] == Words(l);
    LinkingBefore(reg, Step(reg, o, Words(l)[0]), Words(l)[1..]);
    CountedRun(reg, o, o, l, false);
    RunLinkCalls(reg, o, Repeated(l));
    RunLinkCalls(reg, o, Words(l));
    MoreIsNotSame(w, Run(reg, o, Repeated(l)), Run(reg, o, Words(l)));
  }

  /** Extra spaces before items (a repeated token each) leave the wiring of a layout as the
      single-spaced text would make it, if and only if none of them stands before an item
      with mode '*' or '+'. */
  lemma ExtraSpaces<L(!new)>(reg: seq<Entry<L>>, w: Wiring<L>, root: string, l: Layout)
    requires Word(root) && WellSpelled(l) && NonEmptyWords(l) && Lookup(reg, root).Some?
    requires Named(reg, Words(l)) && ExtraBeforeItems(l)
    requires NoneEmpty([root] + Words(l)) && Run(reg, Fresh(), [root] + Words(l)).Linking?
    ensures Tokens(Text(SingleSpaced([root] + Words(l)))) == [root] + Words(l)
    ensures Tokens(Text(Then(root, l))) == [root] + Repeated(l)
    ensures NoneEmpty([root] + Repeated(l))
    ensures Same(w, Run(reg, Fresh(), [root] + Repeated(l)), Run(reg, Fresh(), [root] + Words(l)))
       <==> !ExtraBeforeUpper(l)
  {
    SpacedTexts(reg, root, l);
    if ExtraBeforeUpper(l) {
      HarmfulSpaces(reg, w, Step(reg, Fresh(), root), l);
    } else {
      HarmlessSpaces(reg, w, root, l);
    }
  }

  lemma {:induction false} SpelledWords(l: Layout)
    requires WellSpelled(l)
    ensures forall k :: 0 <= k < |Words(l)| ==> Word(Words(l)[k])
  {
    match l
    case Last(w) =>
    case Then(w, r) => SpelledWords(r);
    case Space(r) => SpelledWords(r);
  }

  // A group with one item, and an extra space before it.
  function SpacedItem(item: string): Layout {
    Then("(", Space(Then(item, Last(")"))))
  }

  lemma SpacedItemIs(item: string)
    requires Word(item) && UpperItem(item)
    ensures var l := SpacedItem(item);
            && Words(l) == ["(", item, ")"] && WellSpelled(l)
            && NonEmptyWords(l) && ExtraBeforeItems(l) && ExtraBeforeUpper(l)
  {
    var last := Then(item, Last(")"));
    assert Words(last) == [item, ")"] && WellSpelled(last) && NonEmptyWords(last) && ExtraBeforeItems(last);
    assert Words(Space(last)) == [item, ")"] && NonEmptyWords(Space(last)) && ExtraBeforeItems(Space(last));
  }

  /** One extra space before the item "*A" is enough to change the wiring. */
  lemma ExtraSpaceHarms<L(!new)>(a: L, w: Wiring<L>, root: string, item: string)
    requires root == "A" && item == "*A"
    ensures var reg, l := [Entry("A", a)], SpacedItem(item);
            && NoneEmpty(Tokens(Text(Then(root, l)))) && NoneEmpty([root] + Words(l))
            && !Same(w, Run(reg, Fresh(), Tokens(Text(Then(root, l)))), Run(reg, Fresh(), [root] + Words(l)))
  {
    var reg, l := [Entry("A", a)], SpacedItem(item);
    var g := Group(Item('*', "A", NoGroup, Empty));
    SpacedItemIs(item);
    assert item[1..] == "A" && ['*'] + "A" == item;
    assert PrintTree(root, g) == [root] + Words(l);
    assert Lookup(reg, "A") == Some(a);
    TreeLinks(reg, root, g);
    ExtraSpaces(reg, w, root, l);
  }
}
