/** The tree of URL components under which the broker finds its command handlers. */
module Handlers {
  import opened Options
  import opened Text

  /** One step in the tree: a literal component, or any value at all. */
  datatype Comp = Literal(name: string) | Variable

  type Shape = seq<Comp>

  type Handler = string  // the full name of a command

  /** The variable that a component of a path definition names, as in "%(name)s". */
  function VariableIn(component: string): Option<string> {
    var n := |component|;
    var text := if n > 0 && component[n - 1] == '\n' then component[..n - 1] else component;
    if |text| >= 4 && text[..2] == "%(" && text[|text| - 2..] == ")s" && '\n' !in text[2..|text| - 2]
    then Some(text[2..|text| - 2]) else None
  }

  /** A component is a variable exactly in this form; a line feed may follow. */
  lemma VariableMeaning(component: string, name: string)
    ensures VariableIn(component) == Some(name) <==>
            '\n' !in name && (component == "%(" + name + ")s" || component == "%(" + name + ")s" + "\n")
  {
    VariableForm(component);
    if '\n' !in name {
      var whole := "%(" + name + ")s";
      assert |whole| == |name| + 4 && whole[..2] == "%(" && whole[|whole| - 2..] == ")s" && whole[2..|whole| - 2] == name;
      assert (whole + "\n")[..|whole|] == whole && whole[|whole| - 1] == 's';
    }
  }

  lemma VariableForm(component: string)
    ensures var v := VariableIn(component);
            v.Some? ==> '\n' !in v.value && (component == "%(" + v.value + ")s" || component == "%(" + v.value + ")s" + "\n")
  {
    if VariableIn(component).Some? {
      var n := |component|;
      var text := if n > 0 && component[n - 1] == '\n' then component[..n - 1] else component;
      assert text == text[..2] + text[2..|text| - 2] + text[|text| - 2..];
      assert component == text || component == text + "\n";
    }
  }

  function CompOf(component: string): Comp {
    if VariableIn(component).Some? then Variable else Literal(component)
  }

  function CompsOf(components: seq<string>): Shape {
    seq(|components|, i requires 0 <= i < |components| => CompOf(components[i]))
  }

  function ShapeOf(path: string): Shape {
    CompsOf(Split(path, '/'))
  }

  function Ext(s: Shape, c: Comp): Shape {
    s + [c]
  }

  lemma ExtInjective(s: Shape, c: Comp, t: Shape, d: Comp)
    ensures Ext(s, c) == Ext(t, d) ==> s == t && c == d
  {
    if Ext(s, c) == Ext(t, d) {
      assert s == Ext(s, c)[..|s|] && t == Ext(t, d)[..|t|];
      assert Ext(s, c)[|s|] == c && Ext(t, d)[|t|] == d;
    }
  }

  ghost predicate Closed(shapes: set<Shape>) {
    [] in shapes && forall s, c :: Ext(s, c) in shapes ==> s in shapes
  }

  /** What changes when one extension is added: only it is new, and it has none itself. */
  lemma OneExtension(shapes: set<Shape>, s: Shape, c: Comp)
    requires Closed(shapes) && s in shapes && Ext(s, c) !in shapes
    ensures Closed(shapes + {Ext(s, c)}) && [] in shapes
    ensures forall t, d :: Ext(t, d) in shapes + {Ext(s, c)} <==> Ext(t, d) in shapes || (t == s && d == c)
    ensures forall d :: Ext(Ext(s, c), d) !in shapes + {Ext(s, c)}
  {
    forall t, d
      ensures Ext(t, d) == Ext(s, c) ==> t == s && d == c
    {
      ExtInjective(t, d, s, c);
    }
    forall d
      ensures Ext(Ext(s, c), d) != Ext(s, c)
    {
      assert |Ext(Ext(s, c), d)| == |Ext(s, c)| + 1;
    }
  }

  class ResponsePage {
    const variable: Option<string>
    var children: map<string, ResponsePage>
    var dynamicChild: ResponsePage?
    var handlers: map<string, Handler>

    constructor (variable: Option<string>)
      ensures this.variable == variable && children == map[] && dynamicChild == null && handlers == map[]
    {
      this.variable, children, dynamicChild, handlers := variable, map[], null, map[];
    }
  }

  /** The links of a page lead to the pages of the extensions of its shape. */
  ghost predicate Linked(nodes: map<Shape, ResponsePage>, s: Shape, children: map<string, ResponsePage>, dynamicChild: ResponsePage?) {
    && (forall name :: name in children <==> Ext(s, Literal(name)) in nodes)
    && (forall name <- children :: children[name] == nodes[Ext(s, Literal(name))])
    && (dynamicChild != null <==> Ext(s, Variable) in nodes)
    && (dynamicChild != null ==> dynamicChild == nodes[Ext(s, Variable)])
  }

  lemma LinkedLeaf(nodes: map<Shape, ResponsePage>, s: Shape)
    requires forall d :: Ext(s, d) !in nodes
    ensures Linked(nodes, s, map[], null)
  {
    hide Ext;
  }

  lemma StillLinked(nodes: map<Shape, ResponsePage>, s: Shape, c: Comp, child: ResponsePage, t: Shape,
                    children: map<string, ResponsePage>, dynamicChild: ResponsePage?)
    requires Linked(nodes, t, children, dynamicChild) && Ext(s, c) !in nodes
    ensures Linked(nodes[Ext(s, c) := child], t,
                   if t == s && c.Literal? then children[c.name := child] else children,
                   if t == s && c.Variable? then child else dynamicChild)
  {
    forall d
      ensures Ext(t, d) == Ext(s, c) <==> t == s && d == c
    {
      ExtInjective(t, d, s, c);
    }
    hide Ext;
  }

  class RestServer {
    const root: ResponsePage
    ghost var nodes: map<Shape, ResponsePage>  // the page of every shape in the tree

    ghost predicate Valid()
      reads this, nodes.Values
    {
      && Closed(nodes.Keys) && nodes[[]] == root
      && (forall s, t :: s in nodes && t in nodes && nodes[s] == nodes[t] ==> s == t)
      && (forall s <- nodes :: Linked(nodes, s, nodes[s].children, nodes[s].dynamicChild))
    }

    /** The tree read as a flat table. */
    ghost function HandlerAt(s: Shape, rendermethod: string): Option<Handler>
      reads this, nodes.Values
    {
      if s in nodes && rendermethod in nodes[s].handlers then Some(nodes[s].handlers[rendermethod]) else None
    }

    constructor ()
      ensures Valid() && fresh(nodes.Values) && forall s, m :: HandlerAt(s, m) == None
    {
      root := new ResponsePage(None);
      new;
      nodes := map[[] := root];
    }

    /** Hang a new page below the page of `s`. */
    method Grow(ghost s: Shape, container: ResponsePage, component: string) returns (child: ResponsePage)
      requires Valid() && s in nodes && nodes[s] == container && Ext(s, CompOf(component)) !in nodes
      modifies this, container
      ensures Valid() && fresh(child) && nodes == old(nodes)[Ext(s, CompOf(component)) := child]
      ensures container.handlers == old(container.handlers) && child.handlers == map[]
    {
      hide Closed, VariableIn, Ext, Linked;
      ghost var c := CompOf(component);
      OneExtension(nodes.Keys, s, c);
      ghost var before := nodes;
      child := new ResponsePage(VariableIn(component));
      if VariableIn(component).None? {
        container.children := container.children[component := child];
      } else {
        container.dynamicChild := child;
      }
      nodes := nodes[Ext(s, c) := child];
      assert nodes.Keys == before.Keys + {Ext(s, c)};
      LinkedLeaf(nodes, Ext(s, c));
      forall t | t in before
        ensures Linked(nodes, t, nodes[t].children, nodes[t].dynamicChild)
      {
        StillLinked(before, s, c, child, t, old(nodes[t].children), old(nodes[t].dynamicChild));
      }
    }

    /** Nothing of the old tree is lost, and what is new has no handlers. */
    twostate predicate Extended()
      reads this, nodes.Values
    {
      && (forall t :: t in old(nodes) ==> t in nodes && nodes[t] == old(nodes)[t] && nodes[t].handlers == old(nodes[t].handlers))
      && (forall t :: t in nodes && t !in old(nodes) ==> fresh(nodes[t]) && nodes[t].handlers == map[])
    }

    /** One step down, making the page if it is missing. */
    method Descend(ghost s: Shape, container: ResponsePage, component: string) returns (child: ResponsePage)
      requires Valid() && s in nodes && nodes[s] == container
      modifies this, container
      ensures Valid() && container.handlers == old(container.handlers)
      ensures var t := Ext(s, CompOf(component));
              if t in old(nodes) then nodes == old(nodes) && child == nodes[t]
              else nodes == old(nodes)[t := child] && fresh(child) && child.handlers == map[]
    {
      hide Ext, VariableIn;
      LinkAt(s, CompOf(component));
      if VariableIn(component).None? {
        if component in container.children {
          return container.children[component];
        }
      } else if container.dynamicChild != null {
        return container.dynamicChild;
      }
      child := Grow(s, container, component);
    }

    method SetHandler(ghost s: Shape, container: ResponsePage, rendermethod: string, handler: Handler)
      requires Valid() && s in nodes && nodes[s] == container
      modifies container
      ensures Valid()
      ensures forall t, m :: HandlerAt(t, m) == if t == s && m == rendermethod then Some(handler) else old(HandlerAt(t, m))
    {
      hide Linked, Closed;
      container.handlers := container.handlers[rendermethod := handler];
    }

    /** Walk down, making the pages that are missing. */
    method Walk(components: seq<string>) returns (container: ResponsePage)
      requires Valid()
      modifies this, nodes.Values
      ensures Valid() && Extended()
      ensures nodes.Keys == old(nodes).Keys + Prefixes(CompsOf(components), |components|)
      ensures CompsOf(components) in nodes && nodes[CompsOf(components)] == container
    {
      hide Linked, Closed, VariableIn, Ext, Valid, Prefixes, CompOf;
      ghost var shape := CompsOf(components);
      container := root;
      RootIsThere(shape);
      for n := 0 to |components|
        invariant Valid() && Extended()
        invariant shape[..n] in nodes && container == nodes[shape[..n]]
        invariant nodes.Keys == old(nodes).Keys + Prefixes(shape, n)
      {
        PrefixesNext(shape, n);
        container := Descend(shape[..n], container, components[n]);
      }
      assert shape[..|shape|] == shape;
    }

    /** Put a handler where the path leads; whatever was there for the method gives way. */
    method InsertHandler(handler: Handler, rendermethod: string, path: string)
      requires Valid()
      modifies this, nodes.Values
      ensures Valid() && fresh(nodes.Values - old(nodes.Values))
      ensures nodes.Keys == old(nodes).Keys + Prefixes(ShapeOf(path), |ShapeOf(path)|)
      ensures forall s, m :: HandlerAt(s, m) ==
                if s == ShapeOf(path) && m == rendermethod then Some(handler) else old(HandlerAt(s, m))
      ensures forall s :: s in old(nodes) ==> s in nodes && nodes[s] == old(nodes)[s]  // so a variable keeps its first name
    {
      hide Valid, Prefixes;
      var container := Walk(Split(path, '/'));
      SetHandler(ShapeOf(path), container, rendermethod, handler);
    }

    lemma RootIsThere(shape: Shape)
      requires Valid()
      ensures [] in nodes && nodes[[]] == root
      ensures shape[..0] == [] && nodes.Keys + Prefixes(shape, 0) == nodes.Keys
    {
      PrefixesStart(shape, nodes.Keys);
    }

    lemma LinkAt(s: Shape, c: Comp)
      requires Valid() && s in nodes
      ensures var page := nodes[s];
              && (Ext(s, c) in nodes <==> (if c.Literal? then c.name in page.children else page.dynamicChild != null))
              && (Ext(s, c) in nodes ==> nodes[Ext(s, c)] == if c.Literal? then page.children[c.name] else page.dynamicChild)
    {
      hide Closed, Ext;
      assert Linked(nodes, s, nodes[s].children, nodes[s].dynamicChild);
    }

    /** One step of a request: a literal child if there is one, else the child for a
        variable; an output style at the end of the component is cut off first. */
    method ChildFor(ghost s: Shape, page: ResponsePage, component: string, styles: seq<string>) returns (child: ResponsePage?)
      requires Valid() && s in nodes && nodes[s] == page
      ensures var t := Next(nodes.Keys, s, Chopped(component, styles));
              if t.Some? then t.value in nodes && child == nodes[t.value] else child == null
    {
      hide Ext;
      ghost var name := Chopped(component, styles);
      LinkAt(s, Literal(name));
      LinkAt(s, Variable);
      var wanted := Chop(component, styles);
      if wanted in page.children {
        child := page.children[wanted];
      } else {
        child := page.dynamicChild;
      }
    }

    /** The handler that answers a request. */
    method Find(components: seq<string>, styles: seq<string>, rendermethod: string) returns (handler: Option<Handler>)
      requires Valid()
      ensures var t := Route(nodes.Keys, [], AllChopped(components, styles));
              handler == if t.Some? then HandlerAt(t.value, rendermethod) else None
    {
      hide Linked, Closed, Valid;
      RootIsThere([]);
      var page := root;
      ghost var names := AllChopped(components, styles);
      ghost var s: Shape := [];
      for n := 0 to |components|
        invariant s in nodes && page == nodes[s]
        invariant Route(nodes.Keys, [], names) == Route(nodes.Keys, s, names[n..])
      {
        assert names[n..][0] == Chopped(components[n], styles) && names[n..][1..] == names[n + 1..];
        var child := ChildFor(s, page, components[n], styles);
        if child == null {
          return None;
        }
        s := Next(nodes.Keys, s, names[n]).value;
        page := child;
      }
      if rendermethod in page.handlers {
        return Some(page.handlers[rendermethod]);
      }
      return None;
    }

    /** Fill the tree from a list of commands. */
    method AddEntries(entries: seq<Entry>)
      requires Valid()
      modifies this, nodes.Values
      ensures Valid() && fresh(nodes.Values - old(nodes.Values))
      ensures forall s, m :: HandlerAt(s, m) == LastFor(entries, s, m, old(HandlerAt(s, m)))
      ensures forall s :: s in nodes <==> s in old(nodes) || exists e :: e in entries && s <= ShapeOf(e.path)
    {
      hide Valid, ShapeOf, Prefixes;
      for n := 0 to |entries|
        invariant Valid() && fresh(nodes.Values - old(nodes.Values))
        invariant forall s, m :: HandlerAt(s, m) == LastFor(entries[..n], s, m, old(HandlerAt(s, m)))
        invariant forall s :: s in nodes <==> s in old(nodes) || exists e :: e in entries[..n] && s <= ShapeOf(e.path)
      {
        assert entries[..n + 1] == entries[..n] + [entries[n]] && entries[..n + 1][..n] == entries[..n];
        PrefixesAre(ShapeOf(entries[n].path));
        InsertHandler(entries[n].fullname, entries[n].rendermethod, entries[n].path);
      }
      assert entries[..|entries|] == entries;
    }
  }

  /** A command as the registry knows it, with the name of its HTTP method in capitals. */
  datatype Entry = Entry(fullname: Handler, rendermethod: string, path: string)

  /** The last command given for a shape and a method, if any. */
  function LastFor(entries: seq<Entry>, s: Shape, rendermethod: string, before: Option<Handler>): Option<Handler> {
    if entries == [] then before else
      var last := entries[|entries| - 1];
      if ShapeOf(last.path) == s && last.rendermethod == rendermethod then Some(last.fullname)
      else LastFor(entries[..|entries| - 1], s, rendermethod, before)
  }

  predicate IsFor(e: Entry, s: Shape, rendermethod: string) {
    ShapeOf(e.path) == s && e.rendermethod == rendermethod
  }

  /** The last entry for the shape and the method decides. */
  lemma {:induction false} LastDecides(entries: seq<Entry>, s: Shape, rendermethod: string, before: Option<Handler>, n: nat)
    requires n < |entries| && ShapeOf(entries[n].path) == s && entries[n].rendermethod == rendermethod
    requires forall m :: n < m < |entries| ==> !IsFor(entries[m], s, rendermethod)
    ensures LastFor(entries, s, rendermethod, before) == Some(entries[n].fullname)
    decreases |entries|
  {
    hide ShapeOf;
    if n < |entries| - 1 {
      assert !IsFor(entries[|entries| - 1], s, rendermethod);
      LastDecides(entries[..|entries| - 1], s, rendermethod, before, n);
    }
  }

  /** Without one, what was there before stays. */
  lemma {:induction false} NoneDecides(entries: seq<Entry>, s: Shape, rendermethod: string, before: Option<Handler>)
    requires forall m :: 0 <= m < |entries| ==> !IsFor(entries[m], s, rendermethod)
    ensures LastFor(entries, s, rendermethod, before) == before
    decreases |entries|
  {
    hide ShapeOf;
    if entries != [] {
      assert !IsFor(entries[|entries| - 1], s, rendermethod);
      NoneDecides(entries[..|entries| - 1], s, rendermethod, before);
    }
  }

  lemma PrefixesAre(shape: Shape)
    ensures forall s :: s in Prefixes(shape, |shape|) <==> s <= shape
  {
    forall s | s <= shape
      ensures s in Prefixes(shape, |shape|)
    {
      assert s == shape[..|s|];
    }
  }

  // Requests.

  predicate EndsWith(s: string, suffix: string) {
    |suffix| <= |s| && s[|s| - |suffix|..] == suffix
  }

  /** The component without the first style it ends with. */
  function Chopped(component: string, styles: seq<string>): string {
    if styles == [] then component
    else if EndsWith(component, "." + styles[0]) then component[..|component| - |styles[0]| - 1]
    else Chopped(component, styles[1..])
  }

  /** The component is something with the style as its extension. */
  ghost predicate Bears(component: string, style: string) {
    exists name: string :: component == name + "." + style
  }

  lemma EndsWithStyle(component: string, style: string)
    ensures EndsWith(component, "." + style) <==> Bears(component, style)
    ensures EndsWith(component, "." + style) ==>
              component == component[..|component| - |style| - 1] + "." + style
  {
    if EndsWith(component, "." + style) {
      var name := component[..|component| - |style| - 1];
      assert component == name + ("." + style) == name + "." + style;
    }
    if Bears(component, style) {
      var name: string :| component == name + "." + style;
      assert component == name + ("." + style);
      assert component[|component| - |"." + style|..] == "." + style;
    }
  }

  /** What is left is the component without its first style, or the component itself if
      it bears none. */
  lemma {:induction false} ChoppedMeaning(component: string, styles: seq<string>)
    ensures var r := Chopped(component, styles);
            || (exists n :: 0 <= n < |styles| && component == r + "." + styles[n] && forall m :: 0 <= m < n ==> !Bears(component, styles[m]))
            || (r == component && forall m :: 0 <= m < |styles| ==> !Bears(component, styles[m]))
    decreases |styles|
  {
    if styles != [] {
      EndsWithStyle(component, styles[0]);
      if !EndsWith(component, "." + styles[0]) {
        ChoppedMeaning(component, styles[1..]);
        var r := Chopped(component, styles);
        if n :| 0 <= n < |styles[1..]| && component == r + "." + styles[1..][n] && forall m :: 0 <= m < n ==> !Bears(component, styles[1..][m]) {
          assert styles[n + 1] == styles[1..][n];
          forall m | 0 <= m < n + 1
            ensures !Bears(component, styles[m])
          {
            if m > 0 {
              assert styles[m] == styles[1..][m - 1];
            }
          }
        } else {
          forall m | 0 <= m < |styles|
            ensures !Bears(component, styles[m])
          {
            if m > 0 {
              assert styles[m] == styles[1..][m - 1];
            }
          }
        }
      }
    }
  }

  method Chop(component: string, styles: seq<string>) returns (r: string)
    ensures r == Chopped(component, styles)
    ensures || (exists n :: 0 <= n < |styles| && component == r + "." + styles[n] && forall m :: 0 <= m < n ==> !Bears(component, styles[m]))
            || (r == component && forall m :: 0 <= m < |styles| ==> !Bears(component, styles[m]))
  {
    ChoppedMeaning(component, styles);
    for n := 0 to |styles|
      invariant Chopped(component, styles) == Chopped(component, styles[n..])
    {
      var extension := "." + styles[n];
      if EndsWith(component, extension) {
        return component[..|component| - |extension|];
      }
      assert styles[n..][1..] == styles[n + 1..];
    }
    return component;
  }

  function AllChopped(components: seq<string>, styles: seq<string>): seq<string> {
    seq(|components|, i requires 0 <= i < |components| => Chopped(components[i], styles))
  }

  ghost function Next(shapes: set<Shape>, s: Shape, name: string): Option<Shape> {
    if Ext(s, Literal(name)) in shapes then Some(Ext(s, Literal(name)))
    else if Ext(s, Variable) in shapes then Some(Ext(s, Variable))
    else None
  }

  /** Where a request ends up: at every step what fits literally is preferred, and
      there is no way back. */
  ghost function Route(shapes: set<Shape>, s: Shape, names: seq<string>): Option<Shape>
    decreases |names|
  {
    if names == [] then Some(s)
    else match Next(shapes, s, names[0])
      case None => None
      case Some(t) => Route(shapes, t, names[1..])
  }

  /** A shape that fits the names from position `n` on, and at every variable has no
      literal sibling that fits as well. */
  ghost predicate Unshadowed(shapes: set<Shape>, u: Shape, names: seq<string>, n: nat) {
    n + |names| == |u| && forall k :: n <= k < |u| ==> Fits(shapes, u, names, n, k)
  }

  ghost predicate Fits(shapes: set<Shape>, u: Shape, names: seq<string>, n: nat, k: nat)
    requires n + |names| == |u| && n <= k < |u|
  {
    && u[..k + 1] in shapes
    && (u[k] == Literal(names[k - n]) || (u[k] == Variable && Ext(u[..k], Literal(names[k - n])) !in shapes))
  }

  /** A request is routed to a shape exactly when the shape fits it unshadowed. */
  lemma {:induction false} RouteIsUnshadowed(shapes: set<Shape>, s: Shape, names: seq<string>, u: Shape)
    ensures Route(shapes, s, names) == Some(u) <==> s <= u && Unshadowed(shapes, u, names, |s|)
    decreases |names|
  {
    if names == [] {
      assert s <= u && |u| == |s| ==> s == u;
    } else {
      RouteStep(shapes, s, names, u);
      if Next(shapes, s, names[0]).Some? {
        RouteIsUnshadowed(shapes, Next(shapes, s, names[0]).value, names[1..], u);
      }
    }
  }

  /** So a request can miss a handler whose path it fits: below a literal child that
      fits its first component nobody looks at the variable next to it. */
  lemma LiteralShadowsVariable(a: string, b: string, c: string)
    requires b != c
    ensures var shapes: set<Shape> := {[], [Literal(a)], [Literal(a), Literal(b)], [Variable], [Variable, Literal(c)]};
            Closed(shapes) && [Variable, Literal(c)] in shapes && Route(shapes, [], [a, c]) == None
  {
    var shapes: set<Shape> := {[], [Literal(a)], [Literal(a), Literal(b)], [Variable], [Variable, Literal(c)]};
    forall s, x | Ext(s, x) in shapes
      ensures s in shapes
    {
      assert s == Ext(s, x)[..|s|];
      assert |s| <= 1;
      if |s| == 1 {
        assert s == [Ext(s, x)[0]];
      }
    }
    var s := [Literal(a)];
    assert Ext([], Literal(a)) == s;
    assert Next(shapes, [], a) == Some(s);
    assert Ext(s, Literal(c))[0] == Literal(a) && Ext(s, Literal(c))[1] == Literal(c);
    assert Ext(s, Variable)[0] == Literal(a) && Ext(s, Variable)[1] == Variable;
    assert Next(shapes, s, c) == None;
    assert [a, c][1..] == [c];
    assert Route(shapes, s, [c]) == None;
  }

  /** A shape fits from here on exactly when it takes the next step and fits from there. */
  lemma RouteStep(shapes: set<Shape>, s: Shape, names: seq<string>, u: Shape)
    requires names != []
    ensures var t := Next(shapes, s, names[0]);
            (s <= u && Unshadowed(shapes, u, names, |s|)) <==>
            t.Some? && t.value <= u && Unshadowed(shapes, u, names[1..], |t.value|)
  {
    var n := |s|;
    if s <= u && Unshadowed(shapes, u, names, n) {
      assert u[..n] == s && u[..n + 1] == Ext(s, u[n]);
      assert Fits(shapes, u, names, n, n);
      var rest, m := names[1..], n + 1;
      forall k | m <= k < |u|
        ensures Fits(shapes, u, rest, m, k)
      {
        assert Fits(shapes, u, names, n, k);
      }
    }
    var t := Next(shapes, s, names[0]);
    if t.Some? && t.value <= u && Unshadowed(shapes, u, names[1..], n + 1) {
      assert u[..n + 1] == t.value && u[..n] == s && Ext(s, u[n]) == t.value;
      assert t.value[n] == u[n];
      forall k | n <= k < |u|
        ensures Fits(shapes, u, names, n, k)
      {
        if k > n {
          assert Fits(shapes, u, names[1..], n + 1, k);
        }
      }
    }
  }

  /** The first prefixes of a shape. */
  ghost function Prefixes(shape: Shape, n: nat): set<Shape>
    requires n <= |shape|
  {
    set i | 0 <= i <= n :: shape[..i]
  }

  lemma PrefixesStart(shape: Shape, shapes: set<Shape>)
    requires Closed(shapes)
    ensures shape[..0] == [] && shapes + Prefixes(shape, 0) == shapes
  {
    assert shape[..0] == [];
  }

  lemma PrefixesNext(shape: Shape, n: nat)
    requires n < |shape|
    ensures shape[..n + 1] == Ext(shape[..n], shape[n])
    ensures Prefixes(shape, n + 1) == Prefixes(shape, n) + {shape[..n + 1]}
  {
    assert shape[..n + 1] == shape[..n] + [shape[n]];
  }
}
