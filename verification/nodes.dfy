/** The node model: values carried by props, element descriptions, the
    log entries through which the engine talks to the host renderer, and
    the element builder (`createElement`, `createTextElement`). */
module Nodes {

  datatype Option<+T> = None | Some(value: T)

  /** An opaque reference to a node of the host tree. */
  type HostRef = nat

  /** A prop value. Event handlers are functions in the source; only
      their identity matters to the engine, so a handler is its id. */
  datatype Value = Str(s: string) | Num(n: int) | Bool(b: bool) | Handler(id: nat)

  /** One named entry of a props object, in key order. */
  datatype Prop = Prop(key: string, value: Value)

  /** An element's type: a host tag name, or a component function
      (known by an id). */
  datatype ElemType = Host(tag: string) | Component(id: nat)

  /** Props: the named entries other than `children`, and the children. */
  datatype Props = Props(attrs: seq<Prop>, children: seq<Element>)

  datatype Element = Element(etype: ElemType, props: Props)

  /** A child as passed to `createElement`: an element (a JS object) or a
      primitive that becomes a text element. */
  datatype Child = Node(elem: Element) | Text(text: Value)

  /** The reserved host type of text nodes. */
  const TextElement: string := "TEXT_ELEMENT"

  /** The reserved props key that holds the children. */
  const ChildrenKey: string := "children"

  /** The key under which a text element keeps its text. */
  const NodeValueKey: string := "nodeValue"

  /** One call into the host renderer. */
  datatype HostOp =
    | CreateElementNode(node: HostRef, tag: string)
    | CreateTextNode(node: HostRef, text: Option<Value>)
    | SetProp(node: HostRef, key: string, value: Value)
    | ClearProp(node: HostRef, key: string)
    | AddListener(node: HostRef, key: string, handler: Value)
    | RemoveListener(node: HostRef, key: string, handler: Value)
    | AppendChild(parent: HostRef, node: HostRef)
    | RemoveChild(parent: HostRef, node: HostRef)

  predicate HasKey(attrs: seq<Prop>, key: string) {
    exists i :: 0 <= i < |attrs| && attrs[i].key == key
  }

  /** `props[key]`: the value of the first entry with that key, or None
      (JavaScript's `undefined`). */
  function Get(attrs: seq<Prop>, key: string): (r: Option<Value>)
    ensures r.Some? <==> HasKey(attrs, key)
    ensures r.Some? ==> Prop(key, r.value) in attrs
  {
    if |attrs| == 0 then None
    else if attrs[0].key == key then Some(attrs[0].value)
    else
      var r := Get(attrs[1..], key);
      assert HasKey(attrs, key) ==> attrs[0].key == key || HasKey(attrs[1..], key) by {
        if HasKey(attrs, key) {
          var i :| 0 <= i < |attrs| && attrs[i].key == key;
          if i > 0 { assert attrs[1..][i - 1].key == key; }
        }
      }
      assert HasKey(attrs[1..], key) ==> HasKey(attrs, key) by {
        if HasKey(attrs[1..], key) {
          var i :| 0 <= i < |attrs[1..]| && attrs[1..][i].key == key;
          assert attrs[i + 1].key == key;
        }
      }
      r
  }

  /** The entries of `attrs` whose key is not `key`, in order. */
  function Without(attrs: seq<Prop>, key: string): (r: seq<Prop>)
    ensures forall p :: p in r <==> p in attrs && p.key != key
    ensures |r| <= |attrs|
    ensures |r| == |attrs| <==> !HasKey(attrs, key)
  {
    if |attrs| == 0 then []
    else
      var rest := Without(attrs[1..], key);
      assert attrs == [attrs[0]] + attrs[1..];
      assert HasKey(attrs, key) <==> attrs[0].key == key || HasKey(attrs[1..], key) by {
        if HasKey(attrs, key) {
          var i :| 0 <= i < |attrs| && attrs[i].key == key;
          if i > 0 { assert attrs[1..][i - 1].key == key; }
        }
        if HasKey(attrs[1..], key) {
          var i :| 0 <= i < |attrs[1..]| && attrs[1..][i].key == key;
          assert attrs[i + 1].key == key;
        }
      }
      if attrs[0].key == key then rest else [attrs[0]] + rest
  }

  /** `createTextElement(text)`. */
  function CreateTextElement(text: Value): (e: Element)
    ensures e.etype == Host(TextElement)
    ensures e.props.children == []
    ensures Get(e.props.attrs, NodeValueKey) == Some(text)
    ensures forall p :: p in e.props.attrs ==> p.key == NodeValueKey
  {
    Element(Host(TextElement), Props([Prop(NodeValueKey, text)], []))
  }

  /** What `createElement` keeps of one child: an element unchanged,
      anything else wrapped in a text element. */
  function ChildElement(c: Child): Element {
    match c
    case Node(e) => e
    case Text(v) => CreateTextElement(v)
  }

  /** `createElement(type, props, ...children)`. `props` is None for a
      `null` props argument (JSX without attributes): spreading it adds
      nothing. The `children` entry written last overrides any `children`
      entry that `props` carried. */
  function CreateElement(etype: ElemType, props: Option<seq<Prop>>, children: seq<Child>): (e: Element)
    ensures e.etype == etype
    ensures |e.props.children| == |children|
    ensures forall i :: 0 <= i < |children| && children[i].Node? ==>
              e.props.children[i] == children[i].elem
    ensures forall i :: 0 <= i < |children| && children[i].Text? ==>
              e.props.children[i] == Element(Host(TextElement), Props([Prop(NodeValueKey, children[i].text)], []))
    ensures forall p :: p in e.props.attrs <==> props.Some? && p in props.value && p.key != ChildrenKey
    ensures !HasKey(e.props.attrs, ChildrenKey)
  {
    var given := if props.Some? then props.value else [];
    var attrs := Without(given, ChildrenKey);
    Element(etype, Props(attrs, seq(|children|, i requires 0 <= i < |children| => ChildElement(children[i]))))
  }

  /** Building from element children only keeps them as they are. */
  lemma {:induction false} CreateElementKeepsElements(etype: ElemType, props: Option<seq<Prop>>, elems: seq<Element>)
    ensures CreateElement(etype, props, seq(|elems|, i requires 0 <= i < |elems| => Node(elems[i]))).props.children == elems
  {
    var children := seq(|elems|, i requires 0 <= i < |elems| => Node(elems[i]));
    var e := CreateElement(etype, props, children);
    assert forall i :: 0 <= i < |elems| ==> children[i].Node? && children[i].elem == elems[i];
  }
}
