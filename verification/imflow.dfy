/**
 Pin and link bookkeeping of the ImNodeFlow node editor.

 A graph (`Handler`, the `ImNodeFlow` object of the library) owns nodes; a node
 (`BaseNode`) owns static and dynamic pins; a pin (`Pin`, standing for both
 `InPin<T>` and `OutPin<T>`, told apart by `kind`) holds a list of links; a link
 (`Link`) joins an output pin (`left`) to an input pin (`right`) and is shared by
 both pins and the graph's registry.

 Weak references in output pins' lists are modelled by an explicit set of
 expired links passed to the operations that test `expired()`. Pin identifiers
 are the already hashed keys. The user hooks are recorded as calls in the
 graph, and a pin's connection filter is a pure function of the `PinInfo`
 views of the two pins.
 */
module ImFlow {
  import opened Seqs

  datatype Option<T> = None | Some(value: T)

  datatype PinKind = Input | Output

  /** Grid position of a node. */
  datatype Vec2 = Vec2(x: real, y: real)

  datatype NodeStyle = NodeStyle(name: string)

  /** The style a node receives when its constructor did not set one. */
  const CYAN: NodeStyle := NodeStyle("cyan")

  /** Liveness markers stamped on a dynamic pin in the frame it is shown. */
  const INPUT_SHOWN: int := 1
  const OUTPUT_SHOWN: int := 2

  /**
   What a connection filter sees of a pin: its identity within its node, its
   declared value type, and whether it holds any link (so that a filter can
   allow an input pin a single link).
   */
  datatype PinInfo = PinInfo(uid: nat, name: string, kind: PinKind, typeName: string, connected: bool)

  /** A connection filter, asked about `(source, destination)`. */
  type Filter = (PinInfo, PinInfo) -> bool

  /** Output pins carry no filter; this one stands in the unused field. */
  const NO_FILTER: Filter := (source: PinInfo, destination: PinInfo) => true

  // ---------------------------------------------------------------------------
  // Links and link lists

  /** A link from output pin `left` to input pin `right`; its endpoints never change. */
  class Link {
    const left: Pin
    const right: Pin

    constructor (left: Pin, right: Pin)
      ensures this.left == left && this.right == right
    {
      this.left := left;
      this.right := right;
    }
  }

  /** The graph a node belongs to, as a frame: empty while the node has none. */
  function Graphs(h: Handler?): set<Handler> {
    if h == null then {} else {h}
  }

  /** Some link in `s` comes from `source`. */
  predicate HasSource(s: seq<Link>, source: Pin) {
    exists j :: 0 <= j < |s| && s[j].left == source
  }

  /** No two links in `s` come from the same pin. */
  predicate DistinctSources(s: seq<Link>) {
    forall i, j :: 0 <= i < j < |s| ==> s[i].left != s[j].left
  }

  /** The destination pins of the links in `s`. */
  function RightPins(s: seq<Link>): set<Pin> {
    set l | l in s :: l.right
  }

  /** The links of `s` that are still alive and lead to `p`. */
  function LiveTo(s: seq<Link>, expired: set<Link>, p: Pin): set<Link> {
    set l | l in s && l !in expired && l.right == p
  }

  /**
   What the input side's `createLink(source)` does to `destination`, `source`
   and `graph`, the graph of `destination`'s node.
   */
  twostate predicate LinkOutcome(destination: Pin, source: Pin, graph: Handler?, new created: Link?)
    reads destination, source, graph
  {
    if old(destination.Refuses(source)) then
      && created == null
      && destination.links == old(destination.links)
      && source.links == old(source.links)
      && (graph != null ==> unchanged(graph))
    else
      && created != null && fresh(created)
      && created.left == source && created.right == destination
      && destination.links == old(destination.links) + [created]
      && source.links == old(source.links) + [created]
      && graph != null
      && graph.Registered(old(graph.links), old(graph.linkHookCalls), created)
  }

  // ---------------------------------------------------------------------------
  // Pins

  class Pin {
    /** Hashed identifier; not checked for uniqueness, so two pins of a node may share one. */
    const uid: nat
    const name: string
    const kind: PinKind
    /** Name of the declared value type `T`. */
    const typeName: string
    const parent: BaseNode
    /** Acceptance filter, consulted by input pins only. */
    const filter: Filter
    var allowSelfConnection: bool
    var links: seq<Link>

    constructor (uid: nat, name: string, kind: PinKind, typeName: string, parent: BaseNode, filter: Filter)
      ensures this.uid == uid && this.name == name && this.kind == kind && this.typeName == typeName
      ensures this.parent == parent && this.filter == filter
      ensures !allowSelfConnection && links == []
    {
      this.uid := uid;
      this.name := name;
      this.kind := kind;
      this.typeName := typeName;
      this.parent := parent;
      this.filter := filter;
      allowSelfConnection := false;
      links := [];
    }

    /** The view of this pin a connection filter is given. */
    function Info(): PinInfo
      reads this
    {
      PinInfo(uid, name, kind, typeName, |links| > 0)
    }

    /** The input pin `this` turns down a link from `other`, in the order the checks are made. */
    predicate Refuses(other: Pin)
      reads this, other
    {
      || other == this
      || other.kind == Input
      || (parent == other.parent && !allowSelfConnection)
      || HasSource(links, other)
      || !filter(other.Info(), Info())
    }

    /** Scans this pin's links for one coming from `other`. */
    method HasLinkFrom(other: Pin) returns (found: bool)
      ensures found <==> HasSource(links, other)
    {
      var i := 0;
      while i < |links|
        invariant 0 <= i <= |links|
        invariant forall j :: 0 <= j < i ==> links[j].left != other
      {
        if links[i].left == other {
          return true;
        }
        i := i + 1;
      }
      return false;
    }

    /** `InPin::createLink`: the connection protocol, run on the destination pin. */
    method InCreateLink(other: Pin) returns (ghost created: Link?)
      requires kind == Input
      requires !Refuses(other) ==> parent.handler != null
      modifies this`links, other`links, Graphs(parent.handler)`links, Graphs(parent.handler)`linkHookCalls
      ensures LinkOutcome(this, other, parent.handler, created)
      ensures DistinctSources(old(links)) ==> DistinctSources(links)
    {
      created := null;
      if other == this || other.kind == Input {
        return;
      }
      if parent == other.parent && !allowSelfConnection {
        return;
      }
      var duplicate := HasLinkFrom(other);
      if duplicate {
        return;
      }
      if !filter(other.Info(), Info()) {
        return;
      }
      var link := new Link(other, this);
      links := links + [link];
      other.AddLink(link);
      var h := parent.handler;
      h.AddLink(link);
      if h.hasLinkHook {
        h.CallLinkHook(link);
      }
      created := link;
    }

    /** `OutPin::createLink`: refuses self and output-to-output, and hands everything else to the input side. */
    method OutCreateLink(other: Pin) returns (ghost created: Link?)
      requires kind == Output
      requires other != this && other.kind == Input && !other.Refuses(this) ==> other.parent.handler != null
      modifies this`links, other`links, Graphs(other.parent.handler)`links, Graphs(other.parent.handler)`linkHookCalls
      ensures other == this || other.kind == Output ==>
        && created == null
        && links == old(links) && other.links == old(other.links)
        && (other.parent.handler != null ==> unchanged(other.parent.handler))
      ensures other != this && other.kind == Input ==> LinkOutcome(other, this, other.parent.handler, created)
    {
      created := null;
      if other == this || other.kind == Output {
        return;
      }
      created := other.InCreateLink(this);
    }

    /** `OutPin::addLink`: records a link built by the input side. */
    method AddLink(link: Link)
      requires kind == Output
      modifies this`links
      ensures links == old(links) + [link]
    {
      links := links + [link];
    }

    /**
     `InPin::deleteLink`, whose body is not part of this model: it is taken to
     erase every entry equal to `link` from the input pin's list.
     */
    method InDeleteLink(link: Link)
      requires kind == Input
      modifies this`links
      ensures links == Without(old(links), {link})
    {
      links := Without(links, {link});
    }

    /**
     `OutPin::deleteLink`: erases every entry equal to `link` (telling its
     destination to drop it too) and every expired entry, keeping the rest in order.
     */
    method OutDeleteLink(link: Link, expired: set<Link>)
      requires kind == Output
      requires link.right.kind == Input
      modifies this`links, link.right`links
      ensures links == Without(old(links), expired + {link})
      ensures link in old(links) && link !in expired ==>
        link.right.links == Without(old(link.right.links), {link})
      ensures !(link in old(links) && link !in expired) ==>
        link.right.links == old(link.right.links)
    {
      var i := 0;
      ghost var k := 0;
      ghost var s := links;
      ghost var gone := expired + {link};
      ghost var notified := false;
      while i < |links|
        invariant 0 <= i <= |links| && 0 <= k <= |s|
        invariant links[..i] == Without(s[..k], gone)
        invariant links[i..] == s[k..]
        invariant notified <==> link in s[..k] && link !in expired
        invariant link.right.links ==
          if notified then Without(old(link.right.links), {link}) else old(link.right.links)
        decreases |links| - i
      {
        var entry := links[i];
        EraseStep(links, i, s, k, gone);
        if entry in expired {
          links := links[..i] + links[i + 1..];
        } else if entry == link {
          entry.right.InDeleteLink(entry);
          if notified {
            WithoutOnceMore(old(link.right.links), link);
          }
          notified := true;
          links := links[..i] + links[i + 1..];
        } else {
          i := i + 1;
        }
        k := k + 1;
      }
      assert s[..k] == s;
    }

    /**
     `OutPin::deleteLinks`: every live link is dropped by its destination pin,
     then this pin's list is emptied.
     */
    method OutDeleteLinks(expired: set<Link>)
      requires kind == Output
      requires forall j :: 0 <= j < |links| ==> links[j].right.kind == Input
      modifies this`links, RightPins(links)`links
      ensures links == []
      ensures forall p :: p in old(RightPins(links)) ==>
        p.links == Without(old(p.links), LiveTo(old(links), expired, p))
    {
      var i := 0;
      ghost var targets := RightPins(links);
      forall p | p in targets
        ensures p.links == Without(old(p.links), LiveTo(links[..0], expired, p))
      {
        assert LiveTo(links[..0], expired, p) == {};
        WithoutUntouched(p.links, {});
      }
      while i < |links|
        invariant 0 <= i <= |links|
        invariant links == old(links)
        invariant forall p :: p in targets ==>
          p.links == Without(old(p.links), LiveTo(links[..i], expired, p))
      {
        var link := links[i];
        assert links[..i + 1] == links[..i] + [link];
        if link !in expired {
          link.right.InDeleteLink(link);
        }
        forall p | p in targets
          ensures p.links == Without(old(p.links), LiveTo(links[..i + 1], expired, p))
        {
          if link !in expired && p == link.right {
            assert LiveTo(links[..i + 1], expired, p) == LiveTo(links[..i], expired, p) + {link};
            WithoutWithout(old(p.links), LiveTo(links[..i], expired, p), {link});
          } else {
            assert LiveTo(links[..i + 1], expired, p) == LiveTo(links[..i], expired, p);
          }
        }
        i := i + 1;
      }
      assert links[..i] == old(links);
      links := [];
    }
  }

  /**
   After `deleteLink(link)` the list no longer holds `link`, so a second call
   with the same link and the same expired entries erases nothing and tells no
   destination pin anything.
   */
  lemma DeleteLinkAgain(s: seq<Link>, link: Link, expired: set<Link>)
    ensures link !in Without(s, expired + {link})
    ensures Without(Without(s, expired + {link}), expired + {link}) == Without(s, expired + {link})
  {
    WithoutWithout(s, expired + {link}, expired + {link});
    assert (expired + {link}) + (expired + {link}) == expired + {link};
  }

  // ---------------------------------------------------------------------------
  // Pin lists of a node

  /** Some pin in `ps` has identifier `h`. */
  predicate HasUid(ps: seq<Pin>, h: nat) {
    exists i :: 0 <= i < |ps| && ps[i].uid == h
  }

  /** No two pins in `ps` share an identifier. */
  predicate UidsDistinct(ps: seq<Pin>) {
    forall i, j :: 0 <= i < j < |ps| ==> ps[i].uid != ps[j].uid
  }

  /** Position of the first pin with identifier `h`, or `|ps|` when there is none. */
  function FindUid(ps: seq<Pin>, h: nat): (k: nat)
    ensures k <= |ps|
    ensures k < |ps| ==> ps[k].uid == h
    ensures forall j :: 0 <= j < k ==> ps[j].uid != h
  {
    if ps == [] then 0
    else if ps[0].uid == h then 0
    else 1 + FindUid(ps[1..], h)
  }

  /** Linear search for the first pin with identifier `h` (`std::find_if` and the erase loops). */
  method IndexOfUid(ps: seq<Pin>, h: nat) returns (k: nat)
    ensures k == FindUid(ps, h)
    ensures k < |ps| <==> HasUid(ps, h)
  {
    k := 0;
    while k < |ps|
      invariant k <= |ps|
      invariant forall j :: 0 <= j < k ==> ps[j].uid != h
    {
      if ps[k].uid == h {
        return;
      }
      k := k + 1;
    }
  }

  /** A match with no match before it is the first one. */
  lemma FindUidAt(ps: seq<Pin>, h: nat, i: nat)
    requires i < |ps| && ps[i].uid == h
    requires forall j :: 0 <= j < i ==> ps[j].uid != h
    ensures FindUid(ps, h) == i && HasUid(ps, h)
  {
  }

  /** With no match the search runs to the end. */
  lemma FindUidNone(ps: seq<Pin>, h: nat)
    requires forall j :: 0 <= j < |ps| ==> ps[j].uid != h
    ensures FindUid(ps, h) == |ps| && !HasUid(ps, h)
  {
  }

  /** `ps` without its first pin with identifier `h`. */
  function DropFirst(ps: seq<Pin>, h: nat): seq<Pin> {
    var k := FindUid(ps, h);
    if k < |ps| then ps[..k] + ps[k + 1..] else ps
  }

  /** The pins of `ps` with identifier `h`, in order. */
  function Matches(ps: seq<Pin>, h: nat): seq<Pin> {
    if ps == [] then []
    else if ps[0].uid == h then [ps[0]] + Matches(ps[1..], h)
    else Matches(ps[1..], h)
  }

  /** The pins of `ps` with another identifier than `h`, in order. */
  function Others(ps: seq<Pin>, h: nat): seq<Pin> {
    if ps == [] then []
    else if ps[0].uid == h then Others(ps[1..], h)
    else [ps[0]] + Others(ps[1..], h)
  }

  /**
   Dropping by identifier removes exactly one pin, the first match, when there
   is one: the pins with other identifiers all stay, in order, and so do the
   later matches; with no match nothing changes.
   */
  lemma {:induction false} DropFirstRemovesFirstMatch(ps: seq<Pin>, h: nat)
    ensures Others(DropFirst(ps, h), h) == Others(ps, h)
    ensures HasUid(ps, h) ==> |Matches(ps, h)| > 0 && Matches(DropFirst(ps, h), h) == Matches(ps, h)[1..]
    ensures HasUid(ps, h) ==> |DropFirst(ps, h)| == |ps| - 1
    ensures !HasUid(ps, h) ==> DropFirst(ps, h) == ps
  {
    if ps != [] {
      HasUidCons(ps, h);
      if ps[0].uid == h {
        assert DropFirst(ps, h) == ps[1..];
      } else {
        DropFirstRemovesFirstMatch(ps[1..], h);
        DropFirstCons(ps, h);
        var d := DropFirst(ps[1..], h);
        assert ([ps[0]] + d)[0] == ps[0] && ([ps[0]] + d)[1..] == d;
      }
    }
  }

  /** A pin with identifier `h` is in `ps` exactly when it is the head or in the tail. */
  lemma HasUidCons(ps: seq<Pin>, h: nat)
    requires ps != []
    ensures HasUid(ps, h) <==> ps[0].uid == h || HasUid(ps[1..], h)
  {
    if HasUid(ps[1..], h) {
      var i :| 0 <= i < |ps| - 1 && ps[1..][i].uid == h;
      assert ps[i + 1].uid == h;
    }
    if HasUid(ps, h) && ps[0].uid != h {
      var i :| 0 <= i < |ps| && ps[i].uid == h;
      assert ps[1..][i - 1].uid == h;
    }
  }

  /** Past a head with another identifier, dropping happens in the tail. */
  lemma DropFirstCons(ps: seq<Pin>, h: nat)
    requires ps != [] && ps[0].uid != h
    ensures DropFirst(ps, h) == [ps[0]] + DropFirst(ps[1..], h)
  {
    var t := ps[1..];
    var k := FindUid(t, h);
    assert FindUid(ps, h) == 1 + k;
    if k < |t| {
      assert ps[..k + 1] == [ps[0]] + t[..k];
      assert ps[k + 2..] == t[k + 1..];
    } else {
      assert ps == [ps[0]] + t;
    }
  }

  // ---------------------------------------------------------------------------
  // Dynamic pins

  /** The pins of a dynamic list, without their markers. */
  function Pins(ds: seq<(int, Pin)>): seq<Pin> {
    seq(|ds|, i requires 0 <= i < |ds| => ds[i].1)
  }

  /**
   The dynamic list after showing identifier `h` this frame: an existing pin with
   that identifier only gets `marker`; otherwise `(marker, p)` is appended.
   */
  function Show(ds: seq<(int, Pin)>, h: nat, marker: int, p: Pin): seq<(int, Pin)> {
    var k := FindUid(Pins(ds), h);
    if k < |ds| then ds[k := (marker, ds[k].1)] else ds + [(marker, p)]
  }

  /**
   Showing keeps every other entry as it was, adds a pin only when the
   identifier was new, and leaves the pin with identifier `h` carrying `marker`.
   */
  lemma ShowMarks(ds: seq<(int, Pin)>, h: nat, marker: int, p: Pin)
    requires p.uid == h
    ensures HasUid(Pins(ds), h) ==> Pins(Show(ds, h, marker, p)) == Pins(ds)
    ensures !HasUid(Pins(ds), h) ==> Pins(Show(ds, h, marker, p)) == Pins(ds) + [p]
    ensures forall i :: 0 <= i < |ds| && ds[i].1.uid != h ==> Show(ds, h, marker, p)[i] == ds[i]
    ensures FindUid(Pins(Show(ds, h, marker, p)), h) < |Show(ds, h, marker, p)|
    ensures Show(ds, h, marker, p)[FindUid(Pins(Show(ds, h, marker, p)), h)].0 == marker
  {
    var k := FindUid(Pins(ds), h);
    var r := Show(ds, h, marker, p);
    if k < |ds| {
      assert Pins(r) == Pins(ds);
    } else {
      assert Pins(r) == Pins(ds) + [p];
      assert Pins(r)[|ds|].uid == h;
    }
  }

  /** Showing keeps the identifiers of a dynamic list pairwise distinct. */
  lemma ShowKeepsUidsDistinct(ds: seq<(int, Pin)>, h: nat, marker: int, p: Pin)
    requires p.uid == h
    requires UidsDistinct(Pins(ds))
    ensures UidsDistinct(Pins(Show(ds, h, marker, p)))
  {
    ShowMarks(ds, h, marker, p);
    if !HasUid(Pins(ds), h) {
      var ps := Pins(ds) + [p];
      forall i, j | 0 <= i < j < |ps| ensures ps[i].uid != ps[j].uid {
        if j == |ds| {
          assert ps[i] == Pins(ds)[i];
        } else {
          assert ps[i] == Pins(ds)[i] && ps[j] == Pins(ds)[j];
        }
      }
    }
  }

  /** Showing the same identifier twice in one frame is the same as showing it once. */
  lemma ShowAgain(ds: seq<(int, Pin)>, h: nat, marker: int, p: Pin, q: Pin)
    requires p.uid == h
    ensures Show(Show(ds, h, marker, p), h, marker, q) == Show(ds, h, marker, p)
  {
    var r := Show(ds, h, marker, p);
    ShowMarks(ds, h, marker, p);
    var k := FindUid(Pins(r), h);
    assert r[k := (marker, r[k].1)] == r;
  }

  // ---------------------------------------------------------------------------
  // Nodes

  class BaseNode {
    var uid: nat
    var pos: Vec2
    var handler: Handler?
    var style: Option<NodeStyle>
    var ins: seq<Pin>
    var outs: seq<Pin>
    var dynamicIns: seq<(int, Pin)>
    var dynamicOuts: seq<(int, Pin)>

    /** A node as the user's constructor leaves it: no graph yet, and the style it chose, if any. */
    constructor (style: Option<NodeStyle>)
      ensures this.style == style && handler == null
      ensures ins == [] && outs == [] && dynamicIns == [] && dynamicOuts == []
    {
      uid := 0;
      pos := Vec2(0.0, 0.0);
      handler := null;
      this.style := style;
      ins, outs := [], [];
      dynamicIns, dynamicOuts := [], [];
    }

    /** `addIN_uid`: appends a new static input pin; an identifier already in use is not checked. */
    method AddIN(h: nat, name: string, typeName: string, filter: Filter) returns (p: Pin)
      modifies this`ins
      ensures fresh(p) && p.uid == h && p.name == name && p.kind == Input && p.typeName == typeName
      ensures p.parent == this && p.filter == filter && p.links == [] && !p.allowSelfConnection
      ensures ins == old(ins) + [p]
    {
      p := new Pin(h, name, Input, typeName, this, filter);
      ins := ins + [p];
    }

    /** `addOUT_uid`: appends a new static output pin; an identifier already in use is not checked. */
    method AddOUT(h: nat, name: string, typeName: string) returns (p: Pin)
      modifies this`outs
      ensures fresh(p) && p.uid == h && p.name == name && p.kind == Output && p.typeName == typeName
      ensures p.parent == this && p.links == [] && !p.allowSelfConnection
      ensures outs == old(outs) + [p]
    {
      p := new Pin(h, name, Output, typeName, this, NO_FILTER);
      outs := outs + [p];
    }

    /** `dropIN`: erases the first static input pin with identifier `h`, if any. */
    method DropIN(h: nat)
      modifies this`ins
      ensures ins == DropFirst(old(ins), h)
    {
      var k := IndexOfUid(ins, h);
      if k < |ins| {
        ins := ins[..k] + ins[k + 1..];
      }
    }

    /** `dropOUT`: erases the first static output pin with identifier `h`, if any. */
    method DropOUT(h: nat)
      modifies this`outs
      ensures outs == DropFirst(old(outs), h)
    {
      var k := IndexOfUid(outs, h);
      if k < |outs| {
        outs := outs[..k] + outs[k + 1..];
      }
    }

    /**
     `showIN_uid`: marks the dynamic input pin `h` as shown this frame, creating
     it on first use; returns the pin whose held value the library hands back.
     */
    method ShowIN(h: nat, name: string, typeName: string, filter: Filter) returns (p: Pin)
      modifies this`dynamicIns
      ensures p.uid == h
      ensures dynamicIns == Show(old(dynamicIns), h, INPUT_SHOWN, p)
      ensures HasUid(Pins(old(dynamicIns)), h) ==>
        p == old(dynamicIns)[FindUid(Pins(old(dynamicIns)), h)].1
      ensures !HasUid(Pins(old(dynamicIns)), h) ==>
        fresh(p) && p.kind == Input && p.name == name && p.typeName == typeName && p.parent == this && p.filter == filter && p.links == [] && !p.allowSelfConnection
      ensures UidsDistinct(Pins(old(dynamicIns))) ==> UidsDistinct(Pins(dynamicIns))
    {
      ghost var s := dynamicIns;
      var i := 0;
      while i < |dynamicIns|
        invariant 0 <= i <= |dynamicIns|
        invariant dynamicIns == s
        invariant forall j :: 0 <= j < i ==> Pins(s)[j].uid != h
      {
        assert Pins(s)[i] == dynamicIns[i].1;
        if dynamicIns[i].1.uid == h {
          FindUidAt(Pins(s), h, i);
          p := dynamicIns[i].1;
          dynamicIns := dynamicIns[i := (INPUT_SHOWN, p)];
          if UidsDistinct(Pins(s)) {
            ShowKeepsUidsDistinct(s, h, INPUT_SHOWN, p);
          }
          return;
        }
        i := i + 1;
      }
      FindUidNone(Pins(s), h);
      p := new Pin(h, name, Input, typeName, this, filter);
      dynamicIns := dynamicIns + [(INPUT_SHOWN, p)];
      if UidsDistinct(Pins(s)) {
        ShowKeepsUidsDistinct(s, h, INPUT_SHOWN, p);
      }
    }

    /** `showOUT_uid`: marks the dynamic output pin `h` as shown this frame, creating it on first use. */
    method ShowOUT(h: nat, name: string, typeName: string) returns (ghost p: Pin)
      modifies this`dynamicOuts
      ensures p.uid == h
      ensures dynamicOuts == Show(old(dynamicOuts), h, OUTPUT_SHOWN, p)
      ensures HasUid(Pins(old(dynamicOuts)), h) ==>
        p == old(dynamicOuts)[FindUid(Pins(old(dynamicOuts)), h)].1
      ensures !HasUid(Pins(old(dynamicOuts)), h) ==>
        fresh(p) && p.kind == Output && p.name == name && p.typeName == typeName && p.parent == this && p.links == [] && !p.allowSelfConnection
      ensures UidsDistinct(Pins(old(dynamicOuts))) ==> UidsDistinct(Pins(dynamicOuts))
    {
      ghost var s := dynamicOuts;
      var i := 0;
      while i < |dynamicOuts|
        invariant 0 <= i <= |dynamicOuts|
        invariant dynamicOuts == s
        invariant forall j :: 0 <= j < i ==> Pins(s)[j].uid != h
      {
        assert Pins(s)[i] == dynamicOuts[i].1;
        if dynamicOuts[i].1.uid == h {
          FindUidAt(Pins(s), h, i);
          p := dynamicOuts[i].1;
          dynamicOuts := dynamicOuts[i := (OUTPUT_SHOWN, dynamicOuts[i].1)];
          if UidsDistinct(Pins(s)) {
            ShowKeepsUidsDistinct(s, h, OUTPUT_SHOWN, p);
          }
          return;
        }
        i := i + 1;
      }
      var q := new Pin(h, name, Output, typeName, this, NO_FILTER);
      p := q;
      FindUidNone(Pins(s), h);
      dynamicOuts := dynamicOuts + [(OUTPUT_SHOWN, q)];
      if UidsDistinct(Pins(s)) {
        ShowKeepsUidsDistinct(s, h, OUTPUT_SHOWN, p);
      }
    }

    /** `inPin`: the first static input pin with identifier `h`, which must exist. */
    method InPin(h: nat) returns (p: Pin)
      requires HasUid(ins, h)
      ensures p in ins && p.uid == h
      ensures p == ins[FindUid(ins, h)]
    {
      var k := IndexOfUid(ins, h);
      p := ins[k];
    }

    /** `outPin`: the first static output pin with identifier `h`, which must exist. */
    method OutPin(h: nat) returns (p: Pin)
      requires HasUid(outs, h)
      ensures p in outs && p.uid == h
      ensures p == outs[FindUid(outs, h)]
    {
      var k := IndexOfUid(outs, h);
      p := outs[k];
    }
  }

  // ---------------------------------------------------------------------------
  // The graph

  class Handler {
    var nodes: map<nat, BaseNode>
    /** Registry of every link created in the graph. */
    var links: seq<Link>
    var hasNodeHook: bool
    var hasLinkHook: bool
    /** The nodes and links the creation hooks were called with, in call order. */
    var nodeHookCalls: seq<BaseNode>
    var linkHookCalls: seq<Link>
    /** Next unused node address; addresses of live nodes are all below it. */
    var nextAddress: nat

    /** Every registered node is stored under its own identifier, an address handed out before. */
    ghost predicate Valid()
      reads this, nodes.Values
    {
      forall u :: u in nodes ==> u < nextAddress && nodes[u].uid == u
    }

    constructor (hasNodeHook: bool, hasLinkHook: bool)
      ensures Valid()
      ensures nodes == map[] && links == [] && nodeHookCalls == [] && linkHookCalls == []
      ensures this.hasNodeHook == hasNodeHook && this.hasLinkHook == hasLinkHook
    {
      nodes := map[];
      links := [];
      this.hasNodeHook := hasNodeHook;
      this.hasLinkHook := hasLinkHook;
      nodeHookCalls, linkHookCalls := [], [];
      nextAddress := 0;
    }

    /** After registering `created` on top of `before`, with the hook called on it when one is set. */
    predicate Registered(before: seq<Link>, hookCallsBefore: seq<Link>, created: Link)
      reads this
    {
      && links == before + [created]
      && linkHookCalls == hookCallsBefore + (if hasLinkHook then [created] else [])
    }

    /** `addLink`, whose body is not part of this model: it is taken to append to the registry. */
    method AddLink(link: Link)
      modifies this`links
      ensures links == old(links) + [link]
    {
      links := links + [link];
    }

    /** A call of the link-creation hook, recorded. */
    method CallLinkHook(link: Link)
      modifies this`linkHookCalls
      ensures linkHookCalls == old(linkHookCalls) + [link]
    {
      linkHookCalls := linkHookCalls + [link];
    }

    /**
     `addNode`: builds a node, places it at `pos`, attaches it to this graph,
     gives it the default style if its constructor chose none, stores it under a
     fresh identifier, and calls the node-creation hook if one is set.
     */
    method AddNode(pos: Vec2, initialStyle: Option<NodeStyle>) returns (n: BaseNode)
      requires Valid()
      modifies this`nodes, this`nextAddress, this`nodeHookCalls
      ensures Valid()
      ensures fresh(n) && n.pos == pos && n.handler == this
      ensures n.style == (if initialStyle.None? then Some(CYAN) else initialStyle)
      ensures n.ins == [] && n.outs == [] && n.dynamicIns == [] && n.dynamicOuts == []
      ensures n.uid !in old(nodes) && nodes == old(nodes)[n.uid := n]
      ensures nodeHookCalls == old(nodeHookCalls) + (if hasNodeHook then [n] else [])
    {
      n := new BaseNode(initialStyle);
      n.pos := pos;
      n.handler := this;
      if n.style.None? {
        n.style := Some(CYAN);
      }
      var uid := nextAddress;
      nextAddress := nextAddress + 1;
      n.uid := uid;
      nodes := nodes[uid := n];
      if hasNodeHook {
        nodeHookCalls := nodeHookCalls + [n];
      }
    }
  }
}
