/**
 * Virtual elements: the immutable description of the desired UI
 * (src/myReact/element.ts, src/myReact/types.ts).
 */
module Elements {

  /** A property value. Functions (event handlers, ...) are compared by identity, hence `Func(id)`. */
  datatype Value = Undefined | Null | Bool(b: bool) | Num(n: int) | Str(s: string) | Func(id: nat)

  /** What an element stands for: a host tag, or a component function identified by its identity. */
  datatype ElementType = Host(tag: string) | Component(id: nat)

  /**
   * A property bag. The reserved `children` key is held apart in its own slot;
   * `fields` holds every other key.
   */
  datatype Props = Props(fields: map<string, Value>, children: seq<Element>)

  datatype Element = Element(etype: ElementType, props: Props)

  /** A child argument of createElement: an object (kept as it is) or a primitive (wrapped as text). */
  datatype Child = ObjectChild(element: Element) | PrimitiveChild(value: Value)

  const TextTag: string := "TEXT_ELEMENT"

  /** The synthetic text element: reserved tag, `nodeValue` set, no children. */
  function CreateTextElement(text: Value): (e: Element)
    ensures e.etype == Host(TextTag)
    ensures "nodeValue" in e.props.fields && e.props.fields["nodeValue"] == text
    ensures e.props.children == []
  {
    Element(Host(TextTag), Props(map["nodeValue" := text], []))
  }

  /**
   * The child arguments createElement is typed to take: strings and elements.
   * A `null` argument is left out: `typeof null` is 'object', so the source
   * would keep it as a child that is no element at all.
   */
  predicate NoNullChild(children: seq<Child>)
  {
    forall i | 0 <= i < |children| :: children[i] != PrimitiveChild(Null)
  }

  /** What one child argument turns into. */
  function AsElement(c: Child): Element
    requires c != PrimitiveChild(Null)
  {
    match c
    case ObjectChild(e) => e
    case PrimitiveChild(v) => CreateTextElement(v)
  }

  /** `children.map(...)`: one element per child argument, in the same order. */
  function MapChildren(children: seq<Child>): (r: seq<Element>)
    requires NoNullChild(children)
    ensures |r| == |children|
    ensures forall i | 0 <= i < |children| :: r[i] == AsElement(children[i])
  {
    if children == [] then [] else [AsElement(children[0])] + MapChildren(children[1..])
  }

  /**
   * createElement(type, props, ...children): every key of `props` other than `children`
   * is copied, and `children` is replaced by the converted child arguments.
   */
  function CreateElement(etype: ElementType, props: Props, children: seq<Child>): (e: Element)
    requires NoNullChild(children)
    ensures e.etype == etype
    ensures e.props.fields == props.fields - {"children"}
    ensures |e.props.children| == |children|
    ensures forall i | 0 <= i < |children| && children[i].ObjectChild? ::
              e.props.children[i] == children[i].element
    ensures forall i | 0 <= i < |children| && children[i].PrimitiveChild? ::
              && e.props.children[i].etype == Host(TextTag)
              && e.props.children[i].props.fields == map["nodeValue" := children[i].value]
              && e.props.children[i].props.children == []
  {
    Element(etype, Props(props.fields - {"children"}, MapChildren(children)))
  }

  /** The incoming `children` of `props` never matter: only the child arguments do. */
  lemma IncomingChildrenIgnored(etype: ElementType, props: Props, other: seq<Element>, children: seq<Child>)
    requires NoNullChild(children)
    ensures CreateElement(etype, props, children) == CreateElement(etype, props.(children := other), children)
  {
  }

}
