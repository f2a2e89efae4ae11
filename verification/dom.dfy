/**
 * The dispatch of the DOM wrappers: which Java wrapper class stands for a
 * DOM object. `createWrapper` chooses by tag name, `NodeList.item` by node
 * type. The DOM objects themselves live in the browser; the model sees
 * only the properties these two read, `nodeType` and `tagName`, and the
 * items and length of a node list.
 */
module Dom {
  import opened JavaTypes

  /** `Node.ELEMENT_NODE` and `Node.TEXT_NODE`. */
  const ELEMENT_NODE: int32 := 1
  const TEXT_NODE: int32 := 3

  /** A DOM object as the browser holds it: its identity and the two properties the dispatch reads. */
  datatype Peer = Peer(id: nat, nodeType: int32, tagName: string)

  /** The Java wrapper classes the dispatch chooses among. */
  datatype Kind = Anchor | Area | Canvas | Div | PlainElement | TextNode | PlainNode

  /** A wrapper object: its class and the DOM object it wraps. */
  datatype Wrapper = Wrapper(kind: Kind, peer: Peer)

  /** A DOM node list as the browser holds it. */
  datatype NodeListPeer = NodeListPeer(items: seq<Peer>)

  /** `HTMLElement.createWrapper`: an exact, case-sensitive switch on the tag name. */
  function CreateWrapper(tagName: string, peer: Peer): (w: Wrapper)
    ensures w.peer == peer
    ensures w.kind != TextNode && w.kind != PlainNode
  {
    match tagName
    case "a" => Wrapper(Anchor, peer)
    case "area" => Wrapper(Area, peer)
    case "canvas" => Wrapper(Canvas, peer)
    case "div" => Wrapper(Div, peer)
    case _ => Wrapper(PlainElement, peer)
  }

  /** The tag a specific element wrapper class stands for. */
  function TagOf(kind: Kind): Option<string>
  {
    match kind
    case Anchor => Some("a")
    case Area => Some("area")
    case Canvas => Some("canvas")
    case Div => Some("div")
    case _ => None
  }

  /**
   * A tag gets a specific wrapper class exactly when it is that class's tag,
   * spelled exactly so; every other tag, `"DIV"` included, gets the plain
   * `HTMLElement`.
   */
  lemma CreateWrapperByTag(tagName: string, peer: Peer)
    ensures var k := CreateWrapper(tagName, peer).kind;
      (TagOf(k).Some? ==> TagOf(k).value == tagName)
      && (k == PlainElement <==> tagName !in {"a", "area", "canvas", "div"})
    ensures CreateWrapper("DIV", peer).kind == PlainElement
  {
  }

  /** Each specific class is chosen for its own tag. */
  lemma CreateWrapperForTagOf(kind: Kind, peer: Peer)
    requires TagOf(kind).Some?
    ensures CreateWrapper(TagOf(kind).value, peer) == Wrapper(kind, peer)
  {
  }

  /** `NodeList.length`: the list's `length` property. */
  function Length(list: NodeListPeer): (n: nat)
    ensures n == |list.items|
  {
    |list.items|
  }

  /**
   * `NodeList.item`: an element is wrapped by `createWrapper` with its tag
   * name, a text node as `Text`, any other node as a plain `Node`. Outside
   * the list the browser's `item` gives null, and reading `nodeType` of
   * null raises a script error.
   */
  function Item(list: NodeListPeer, idx: int32): (r: Result<Wrapper, Throwable>)
    ensures r.Success? <==> 0 <= idx as int < Length(list)
  {
    if !(0 <= idx as int < |list.items|) then Failure(ScriptException("TypeError"))
    else
      var peer := list.items[idx];
      if peer.nodeType == ELEMENT_NODE then Success(CreateWrapper(peer.tagName, peer))
      else if peer.nodeType == TEXT_NODE then Success(Wrapper(TextNode, peer))
      else Success(Wrapper(PlainNode, peer))
  }

  /**
   * The item wraps exactly the object at `idx`; its class is an element
   * class exactly for an element, `Text` exactly for a text node, and the
   * tag name matters only for elements.
   */
  lemma ItemDispatch(list: NodeListPeer, idx: int32)
    requires 0 <= idx as int < Length(list)
    ensures var w := Item(list, idx).value; var peer := list.items[idx];
      w.peer == peer
      && (w.kind == TextNode <==> peer.nodeType == TEXT_NODE)
      && (w.kind == PlainNode <==> peer.nodeType != ELEMENT_NODE && peer.nodeType != TEXT_NODE)
      && (peer.nodeType == ELEMENT_NODE ==> w == CreateWrapper(peer.tagName, peer))
  {
  }

  /** Two objects that differ only in their tag name get the same class unless they are elements. */
  lemma ItemIgnoresTagOfNonElements(id: nat, nodeType: int32, tag1: string, tag2: string)
    requires nodeType != ELEMENT_NODE
    ensures Item(NodeListPeer([Peer(id, nodeType, tag1)]), 0).value.kind == Item(NodeListPeer([Peer(id, nodeType, tag2)]), 0).value.kind
  {
  }

  /** The ASCII upper-case form of a string, as an HTML document reports the tag name of an HTML element. */
  function UpperAscii(s: string): (r: string)
    ensures |r| == |s|
  {
    seq(|s|, i requires 0 <= i < |s| => if 'a' <= s[i] <= 'z' then (s[i] as int - 32) as char else s[i])
  }

  /** The ASCII lower-case form of a string. */
  function LowerAscii(s: string): (r: string)
    ensures |r| == |s|
  {
    seq(|s|, i requires 0 <= i < |s| => if 'A' <= s[i] <= 'Z' then (s[i] as int + 32) as char else s[i])
  }

  /** A string without ASCII capitals is recovered from its upper-case form. */
  lemma LowerOfUpper(s: string)
    requires forall i :: 0 <= i < |s| ==> !('A' <= s[i] <= 'Z')
    ensures LowerAscii(UpperAscii(s)) == s
  {
    forall i | 0 <= i < |s|
      ensures LowerAscii(UpperAscii(s))[i] == s[i]
    {
      if 'a' <= s[i] <= 'z' {
        assert UpperAscii(s)[i] == (s[i] as int - 32) as char;
      } else {
        assert UpperAscii(s)[i] == s[i];
      }
    }
  }

  /** The element the browser's `createElement(tagName)` makes in an HTML document: its tag name upper-cased. */
  function CreatedElement(id: nat, tagName: string): (p: Peer)
    ensures p.nodeType == ELEMENT_NODE
  {
    Peer(id, ELEMENT_NODE, UpperAscii(tagName))
  }

  /**
   * As written, `item` passes the DOM tag name, which is upper case, to the
   * lower-case switch: a `div` created with `createElement("div")` is an
   * `HTMLDivElement`, but the same element read back from a node list is a
   * plain `HTMLElement`.
   */
  lemma ItemMissesUpperCaseTags()
    ensures var div := CreatedElement(0, "div");
      CreateWrapper("div", div).kind == Div
      && Item(NodeListPeer([div]), 0) == Success(Wrapper(PlainElement, div))
  {
    var div := CreatedElement(0, "div");
    assert div.tagName == "DIV";
  }

  /** `item` with the tag name lower-cased before the switch. */
  function ItemIntended(list: NodeListPeer, idx: int32): (r: Result<Wrapper, Throwable>)
    ensures r.Success? <==> 0 <= idx as int < Length(list)
  {
    if !(0 <= idx as int < |list.items|) then Failure(ScriptException("TypeError"))
    else
      var peer := list.items[idx];
      if peer.nodeType == ELEMENT_NODE then Success(CreateWrapper(LowerAscii(peer.tagName), peer))
      else if peer.nodeType == TEXT_NODE then Success(Wrapper(TextNode, peer))
      else Success(Wrapper(PlainNode, peer))
  }

  /**
   * With the tag name lower-cased, an element read back from a node list
   * gets the wrapper `createElement` gave it, for every tag written without
   * capitals; other nodes are wrapped as before.
   */
  lemma ItemIntendedAgreesWithCreate(id: nat, tagName: string)
    requires forall i :: 0 <= i < |tagName| ==> !('A' <= tagName[i] <= 'Z')
    ensures var p := CreatedElement(id, tagName);
      ItemIntended(NodeListPeer([p]), 0) == Success(CreateWrapper(tagName, p))
  {
    LowerOfUpper(tagName);
  }

  /** The correction changes nothing for nodes that are not elements. */
  lemma ItemIntendedKeepsNonElements(list: NodeListPeer, idx: int32)
    requires 0 <= idx as int < Length(list) && list.items[idx].nodeType != ELEMENT_NODE
    ensures ItemIntended(list, idx) == Item(list, idx)
  {
  }
}
