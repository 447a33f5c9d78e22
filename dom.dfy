/**
 * HTML elements: the attribute store of `ElementImpl` and the per-element
 * style cache of `HTMLElementImpl`, over a document tree whose shape is
 * fixed when the elements are built.
 *
 * Every element of the model is an HTML element. Its three cache slots
 * (local, current and computed style) fill on first read and are cleared by
 * the invalidation operations; a deep clear walks the subtree depth-first.
 */
module Dom {
  import opened Wrappers
  import opened JavaText
  import opened Css

  /** A node in an element's child list. A `TextNode` stands for every
      `Text` node, CDATA sections included, as `CDATASection` extends `Text`.
      Other node kinds (processing instructions, ...) are `OtherNode`. */
  datatype Node =
    | ElementNode(element: Element)
    | TextNode(text: string)
    | CommentNode(text: string)
    | OtherNode

  /** `getNodeName` of a node. */
  function NodeName(n: Node): string {
    match n
    case ElementNode(e) => e.tagName
    case TextNode(_) => "#text"
    case CommentNode(_) => "#comment"
    case OtherNode => "#other"
  }

  /** An attribute node handed out by the store (`AttrImpl`). */
  datatype Attr = Attr(name: string, value: Option<string>, isId: bool)

  /** The `DOMException` codes raised by the modelled operations. */
  datatype DomError = NotSupportedErr | InvalidCharacterErr | SyntaxErr

  /** The attribute map, keyed by normalised name; a value may be `null`. */
  type AttributeMap = map<string, Option<string>>

  /** `getAttribute`: `null` for a missing name and for a `null` value. */
  function Get(attrs: AttributeMap, name: string): Option<string> {
    var k := NormalizeAttributeName(name);
    if k in attrs then attrs[k] else None
  }

  /** `hasAttribute`: the key is present, whatever its value. */
  predicate Has(attrs: AttributeMap, name: string) {
    NormalizeAttributeName(name) in attrs
  }

  /** The map after `attributes.put(normalName, value)`. */
  function Put(attrs: AttributeMap, name: string, value: Option<string>): AttributeMap {
    attrs[NormalizeAttributeName(name) := value]
  }

  /** The map after `attributes.remove(normalName)`. */
  function Delete(attrs: AttributeMap, name: string): AttributeMap {
    attrs - {NormalizeAttributeName(name)}
  }

  /** Names that differ only in letter case address the same entry. */
  lemma NamesIgnoreCase(attrs: AttributeMap, a: string, b: string)
    requires Lower(a) == Lower(b)
    ensures Get(attrs, a) == Get(attrs, b) && (Has(attrs, a) <==> Has(attrs, b))
  {
  }

  /** Every key of the map is a normalised name, as every write of the
      store normalises the name before it touches the map. */
  ghost predicate KeysNormalized(attrs: AttributeMap) {
    forall k :: k in attrs ==> NormalizeAttributeName(k) == k
  }

  /** `setAttribute` and `removeAttribute` keep the keys normalised. */
  lemma StoreKeepsKeysNormalized(attrs: AttributeMap, name: string, value: Option<string>)
    requires KeysNormalized(attrs)
    ensures KeysNormalized(Put(attrs, name, value))
    ensures KeysNormalized(Delete(attrs, name))
  {
    NormalizeIdempotent(name);
  }

  /** Reading back what was stored; every other name keeps its value. */
  lemma GetPut(attrs: AttributeMap, name: string, value: Option<string>, other: string)
    ensures Has(Put(attrs, name, value), other) <==> Lower(other) == Lower(name) || Has(attrs, other)
    ensures Get(Put(attrs, name, value), other)
        == if Lower(other) == Lower(name) then value else Get(attrs, other)
  {
  }

  /** Removal deletes exactly the entry of that name. */
  lemma GetDelete(attrs: AttributeMap, name: string, other: string)
    ensures Has(Delete(attrs, name), other) <==> Lower(other) != Lower(name) && Has(attrs, other)
    ensures Get(Delete(attrs, name), other)
        == if Lower(other) == Lower(name) then None else Get(attrs, other)
  {
  }

  /** `outerNewHtml`: closes an unterminated start tag. */
  function OuterNewHtml(newHtml: Option<string>): (r: string)
    ensures newHtml.None? ==> r == ""
    ensures newHtml.Some? && (EndsWith(newHtml.value, ">") || !StartsWith(newHtml.value, "<"))
      ==> r == newHtml.value
    ensures newHtml.Some? && !EndsWith(newHtml.value, ">") && StartsWith(newHtml.value, "<")
      ==> r == newHtml.value + ">"
  {
    if newHtml.None? then ""
    else if EndsWith(newHtml.value, ">") || !StartsWith(newHtml.value, "<") then newHtml.value
    else newHtml.value + ">"
  }

  /** A second pass of `outerNewHtml` changes nothing. */
  lemma OuterNewHtmlIdempotent(newHtml: Option<string>)
    ensures OuterNewHtml(Some(OuterNewHtml(newHtml))) == OuterNewHtml(newHtml)
  {
    if newHtml.Some? && !EndsWith(newHtml.value, ">") && StartsWith(newHtml.value, "<") {
      var s := newHtml.value + ">";
      assert s[|s| - 1..] == ">";
      assert s[..1] == newHtml.value[..1];
    }
  }

  /** The ` k="v"` text of one attribute, with its value HTML-encoded. */
  function AttributeText(k: string, v: string, encode: string -> string): string {
    " " + k + "=\"" + encode(v) + "\""
  }

  /** The attribute part of the outer HTML when the map is iterated in
      `order`: entries holding `null` are skipped. */
  function AttributesText(attrs: AttributeMap, order: seq<string>, encode: string -> string): string
    decreases |order|
  {
    if order == [] then ""
    else
      var k := order[|order| - 1];
      var rest := AttributesText(attrs, order[..|order| - 1], encode);
      if k in attrs && attrs[k].Some? then rest + AttributeText(k, attrs[k].value, encode) else rest
  }

  /** `order` is an iteration order of the map, as `forEach` visits it:
      each key of `attrs` exactly once, and nothing else. */
  ghost predicate IsKeyOrder(attrs: AttributeMap, order: seq<string>) {
    forall k :: multiset(order)[k] == if k in attrs then 1 else 0
  }

  /** The keys whose ` k="v"` text is written, in the order written. */
  function ShownKeys(attrs: AttributeMap, order: seq<string>): seq<string>
    decreases |order|
  {
    if order == [] then []
    else
      var k := order[|order| - 1];
      var rest := ShownKeys(attrs, order[..|order| - 1]);
      if k in attrs && attrs[k].Some? then rest + [k] else rest
  }

  /** The texts of the given keys, one after the other. */
  function PiecesText(attrs: AttributeMap, keys: seq<string>, encode: string -> string): string
    requires forall i :: 0 <= i < |keys| ==> keys[i] in attrs && attrs[keys[i]].Some?
    decreases |keys|
  {
    if keys == [] then ""
    else
      var k := keys[|keys| - 1];
      PiecesText(attrs, keys[..|keys| - 1], encode) + AttributeText(k, attrs[k].value, encode)
  }

  /** Every shown key holds a value. */
  lemma {:induction false} ShownKeysValued(attrs: AttributeMap, order: seq<string>)
    ensures forall i :: 0 <= i < |ShownKeys(attrs, order)| ==>
      ShownKeys(attrs, order)[i] in attrs && attrs[ShownKeys(attrs, order)[i]].Some?
    decreases |order|
  {
    if order != [] {
      ShownKeysValued(attrs, order[..|order| - 1]);
    }
  }

  /** A key is shown as often as `order` lists it, when it holds a value,
      and never otherwise. */
  lemma {:induction false} ShownKeysCount(attrs: AttributeMap, order: seq<string>, k: string)
    ensures multiset(ShownKeys(attrs, order))[k] ==
      if k in attrs && attrs[k].Some? then multiset(order)[k] else 0
    decreases |order|
  {
    if order != [] {
      var init := order[..|order| - 1];
      assert order == init + [order[|order| - 1]];
      ShownKeysCount(attrs, init, k);
    }
  }

  /** The attribute text is the texts of the shown keys, in order. */
  lemma {:induction false} AttributesTextPieces(attrs: AttributeMap, order: seq<string>, encode: string -> string)
    ensures forall i :: 0 <= i < |ShownKeys(attrs, order)| ==>
      ShownKeys(attrs, order)[i] in attrs && attrs[ShownKeys(attrs, order)[i]].Some?
    ensures AttributesText(attrs, order, encode) == PiecesText(attrs, ShownKeys(attrs, order), encode)
    decreases |order|
  {
    ShownKeysValued(attrs, order);
    if order != [] {
      var init := order[..|order| - 1];
      var k := order[|order| - 1];
      AttributesTextPieces(attrs, init, encode);
      if k in attrs && attrs[k].Some? {
        var keys := ShownKeys(attrs, init) + [k];
        assert keys[..|keys| - 1] == ShownKeys(attrs, init);
      }
    }
  }

  /** When `order` is an iteration order of the map, every attribute with a
      value is written out, and its key is among the written keys exactly
      once; an attribute holding `null` is not among them. */
  lemma AttributeShown(attrs: AttributeMap, order: seq<string>, encode: string -> string, k: string)
    requires IsKeyOrder(attrs, order)
    ensures k in attrs && attrs[k].Some? ==>
      Contains(AttributesText(attrs, order, encode), AttributeText(k, attrs[k].value, encode))
    ensures multiset(ShownKeys(attrs, order))[k] == if k in attrs && attrs[k].Some? then 1 else 0
  {
    ShownKeysCount(attrs, order, k);
    if k in attrs && attrs[k].Some? {
      assert k in multiset(order);
      var i :| 0 <= i < |order| && order[i] == k;
      AttributeShownAt(attrs, order, encode, i);
    }
  }

  /** The attribute the `i`-th step visits is written out when it has a value. */
  lemma {:induction false} AttributeShownAt(attrs: AttributeMap, order: seq<string>, encode: string -> string, i: nat)
    requires i < |order| && order[i] in attrs && attrs[order[i]].Some?
    ensures Contains(AttributesText(attrs, order, encode), AttributeText(order[i], attrs[order[i]].value, encode))
    decreases |order|
  {
    var k := order[|order| - 1];
    var rest := AttributesText(attrs, order[..|order| - 1], encode);
    if i == |order| - 1 {
      var piece := AttributeText(k, attrs[k].value, encode);
      assert OccursAt(rest + piece, piece, |rest|) by {
        assert (rest + piece)[|rest|..|rest| + |piece|] == piece;
      }
    } else {
      AttributeShownAt(attrs, order[..|order| - 1], encode, i);
      var piece := AttributeText(order[i], attrs[order[i]].value, encode);
      var p :| 0 <= p <= |rest| - |piece| && OccursAt(rest, piece, p);
      ContainsExtend(rest, piece, p, if k in attrs && attrs[k].Some? then AttributeText(k, attrs[k].value, encode) else "");
    }
  }

  lemma ContainsExtend(s: string, sub: string, p: int, tail: string)
    requires OccursAt(s, sub, p)
    ensures OccursAt(s + tail, sub, p) && Contains(s + tail, sub)
  {
    assert (s + tail)[p..p + |sub|] == s[p..p + |sub|];
    assert 0 <= p <= |s + tail| - |sub| && OccursAt(s + tail, sub, p);
  }

  /** An element with only `null`-valued attributes writes none of them. */
  lemma {:induction false} NullAttributesOmitted(attrs: AttributeMap, order: seq<string>, encode: string -> string)
    requires forall k :: k in attrs ==> attrs[k].None?
    ensures AttributesText(attrs, order, encode) == ""
    decreases |order|
  {
    if order != [] {
      NullAttributesOmitted(attrs, order[..|order| - 1], encode);
    }
  }

  /** The pieces of a child list that `getRawInnerText` keeps: non-blank
      text, the non-blank text of child elements, and non-blank comments
      when `includeComment` is set. */
  function Kept(s: string): string {
    if NotBlank(Some(s)) then s else ""
  }

  /** A kept piece is blank only when it is empty. */
  lemma KeptBlank(s: string)
    ensures IsBlank(Some(Kept(s))) <==> Kept(s) == ""
  {
  }

  /** Appending a kept piece to a text that is blank only when empty gives
      a text that is blank only when empty. */
  lemma KeptAppendBlank(front: string, s: string)
    requires IsBlank(Some(front)) <==> front == ""
    ensures IsBlank(Some(front + Kept(s))) <==> front + Kept(s) == ""
  {
    KeptBlank(s);
    BlankConcat(front, Kept(s));
  }

  /** The kept pieces, run together. */
  function KeptText(pieces: seq<string>): string {
    if pieces == [] then "" else KeptText(pieces[..|pieces| - 1]) + Kept(pieces[|pieces| - 1])
  }

  lemma KeptTextSnoc(pieces: seq<string>, s: string)
    ensures KeptText(pieces + [s]) == KeptText(pieces) + Kept(s)
  {
    assert (pieces + [s])[..|pieces|] == pieces;
  }

  lemma {:induction false} KeptTextBlank(pieces: seq<string>)
    ensures IsBlank(Some(KeptText(pieces))) <==> KeptText(pieces) == ""
  {
    if pieces != [] {
      KeptTextBlank(pieces[..|pieces| - 1]);
      KeptAppendBlank(KeptText(pieces[..|pieces| - 1]), pieces[|pieces| - 1]);
    }
  }

  /** The elements directly below a node list. */
  function ElementsOf(ns: seq<Node>): set<Element> {
    set i | 0 <= i < |ns| && ns[i].ElementNode? :: ns[i].element
  }

  /** Everything below a node list: each child element and what lies below it. */
  ghost function Below(ns: seq<Node>): set<Element> {
    set i, e | 0 <= i < |ns| && ns[i].ElementNode? && e in ns[i].element.Repr() :: e
  }

  lemma BelowChild(ns: seq<Node>, i: nat)
    requires i < |ns| && ns[i].ElementNode?
    ensures ns[i].element in Below(ns) && ns[i].element.Descendants <= Below(ns)
  {
    var c := ns[i].element;
    assert c in c.Repr();
    forall e | e in c.Descendants ensures e in Below(ns) {
      assert e in c.Repr();
    }
  }

  /** What lies below a list with one more node at its end. */
  lemma BelowSnoc(ns: seq<Node>, n: Node)
    ensures Below(ns + [n]) == Below(ns) + (if n.ElementNode? then n.element.Repr() else {})
  {
    var ms := ns + [n];
    forall e | e in Below(ms) ensures e in Below(ns) + (if n.ElementNode? then n.element.Repr() else {}) {
      var i :| 0 <= i < |ms| && ms[i].ElementNode? && e in ms[i].element.Repr();
      if i < |ns| {
        assert ms[i] == ns[i];
      }
    }
    forall e | e in Below(ns) ensures e in Below(ms) {
      var i :| 0 <= i < |ns| && ns[i].ElementNode? && e in ns[i].element.Repr();
      assert ms[i] == ns[i];
    }
    if n.ElementNode? {
      forall e | e in n.element.Repr() ensures e in Below(ms) {
        assert ms[|ns|] == n;
      }
    }
  }

  /** An element answers a `getAncestor` or `getParent` query for `elementTL`:
      the query is "*", or it equals the element's lowered tag name. */
  predicate MatchesTag(e: Element, elementTL: string) {
    elementTL == "*" || elementTL == Lower(e.tagName)
  }

  /** `chain[i]` matches and no element before it does. */
  predicate FirstMatch(chain: seq<Element>, i: int, elementTL: string)
    requires 0 <= i < |chain|
  {
    MatchesTag(chain[i], elementTL) && forall j :: 0 <= j < i ==> !MatchesTag(chain[j], elementTL)
  }

  /** The first element above is the parent: a parent that answers the query
      is the ancestor found, and "*" finds the parent whenever there is one. */
  lemma ParentIsNearestAncestor(e: Element, elementTL: string, chain: seq<Element>)
    requires e.ParentChain(chain)
    ensures e.GetParent(elementTL) != null ==> e.GetAncestor(elementTL, chain) == e.GetParent(elementTL)
    ensures elementTL == "*" ==> e.GetAncestor(elementTL, chain) == e.GetParent(elementTL)
    ensures e.GetParent(elementTL) == null && e.parentNode is Element ==>
      e.GetAncestor(elementTL, chain) == (e.parentNode as Element).GetAncestor(elementTL, chain[1..])
  {
  }

  /** Elements with equal attributes answer every attribute query alike,
      and the relation is symmetric. */
  lemma EqualAttributesAnswerAlike(a: Element, b: Element, name: string)
    requires a.EqualAttributes(ElementNode(b))
    ensures b.EqualAttributes(ElementNode(a))
    ensures a.GetAttribute(name) == b.GetAttribute(name) && a.HasAttribute(name) == b.HasAttribute(name)
    ensures a.GetAttributeAsBoolean(name) == b.GetAttributeAsBoolean(name)
  {
  }

  /** `hasAttributes` holds exactly when some name answers `hasAttribute`. */
  lemma HasAttributesIff(e: Element)
    requires KeysNormalized(e.attributes)
    ensures e.HasAttributes() <==> exists n :: e.HasAttribute(n)
  {
    if e.HasAttributes() {
      var k :| k in e.attributes;
      assert e.HasAttribute(k);
    }
  }

  /** Two elements whose keys are normalised have equal attributes exactly
      when every name gets the same `getAttribute` and `hasAttribute` answer
      from both. */
  lemma EqualAttributesIff(a: Element, b: Element)
    requires KeysNormalized(a.attributes) && KeysNormalized(b.attributes)
    ensures a.EqualAttributes(ElementNode(b)) <==>
      forall n :: a.GetAttribute(n) == b.GetAttribute(n) && a.HasAttribute(n) == b.HasAttribute(n)
  {
    if forall n :: a.GetAttribute(n) == b.GetAttribute(n) && a.HasAttribute(n) == b.HasAttribute(n) {
      forall k | k in a.attributes
        ensures k in b.attributes && a.attributes[k] == b.attributes[k]
      {
        assert a.HasAttribute(k) && b.HasAttribute(k);
      }
      forall k | k in b.attributes
        ensures k in a.attributes
      {
        assert b.HasAttribute(k) && a.HasAttribute(k);
      }
      assert a.attributes == b.attributes;
    }
  }

  /** Every element of the list takes `parent` as its parent node. */
  method Adopt(children: seq<Node>, parent: object)
    modifies ElementsOf(children)`parentNode
    ensures forall i :: 0 <= i < |children| && children[i].ElementNode? ==> children[i].element.parentNode == parent
  {
    for i := 0 to |children|
      invariant forall j :: 0 <= j < i && children[j].ElementNode? ==> children[j].element.parentNode == parent
    {
      if children[i].ElementNode? {
        children[i].element.parentNode := parent;
      }
    }
  }

  /** The document an element belongs to: its id and name tables, and the
      stylesheet aggregator its rules come from. */
  class Document {
    const aggregator: Aggregator
    var idTable: map<Option<string>, Element>
    var nameTable: map<Option<string>, Element>

    constructor (aggregator: Aggregator)
      ensures this.aggregator == aggregator && idTable == map[] && nameTable == map[]
    {
      this.aggregator := aggregator;
      idTable := map[];
      nameTable := map[];
    }
  }

  /** The replacement for the name table entry after `assignAttributeField`
      for "name": `oldName` is read after the map was updated. */
  function NameTableAfter(table: map<Option<string>, Element>, oldName: Option<string>,
                          value: Option<string>, e: Element): map<Option<string>, Element>
  {
    (if oldName.Some? then table - {oldName} else table)[value := e]
  }

  /** As written, `oldName` is read after the map already holds `value`, so
      a previous name other than `value` keeps its table entry. */
  lemma StaleNameEntry(table: map<Option<string>, Element>, previous: Option<string>,
                       value: Option<string>, e: Element)
    requires previous in table && previous != value
    ensures previous in NameTableAfter(table, value, value, e)
    ensures NameTableAfter(table, value, value, e)[previous] == table[previous]
  {
  }

  /** Read before the map is updated, `oldName` is the previous name: its
      entry leaves the table, the new name maps to the element, and every
      other entry stays. */
  lemma NameTableIntended(table: map<Option<string>, Element>, previous: Option<string>,
                          value: Option<string>, e: Element)
    requires previous.Some? && previous != value
    ensures previous !in NameTableAfter(table, previous, value, e)
    ensures value in NameTableAfter(table, previous, value, e) && NameTableAfter(table, previous, value, e)[value] == e
    ensures forall n :: n in table && n != previous && n != value ==>
      n in NameTableAfter(table, previous, value, e) && NameTableAfter(table, previous, value, e)[n] == table[n]
  {
  }

  class Element {
    const tagName: string
    const document: Document?
    /** What `createDefaultStyleSheet` gives for this kind of element. */
    const defaultStyle: Option<Properties>
    const children: seq<Node>
    ghost const Descendants: set<Element>

    var parentNode: object?
    var notificationsSuspended: bool
    var attributes: AttributeMap
    var id: Option<string>
    var localStyle: Option<Properties>
    var currentStyle: Option<Properties>
    var computedStyles: Option<map<string, Properties>>
    var hasMouseOver: bool

    ghost function Repr(): set<Element> {
      {this} + Descendants
    }

    /** The subtree is a finite tree: no element lies below itself. */
    ghost predicate Valid()
      decreases Descendants
    {
      this !in Descendants &&
      Descendants == Below(children) &&
      (forall i :: 0 <= i < |children| && children[i].ElementNode? ==>
        children[i].element in Descendants && children[i].element.Descendants <= Descendants &&
        children[i].element !in children[i].element.Descendants && children[i].element.Valid())
    }

    /** A new element with the given children; each child's parent becomes
        the new element. */
    constructor (tagName: string, document: Document?, defaultStyle: Option<Properties>, children: seq<Node>)
      requires forall i :: 0 <= i < |children| && children[i].ElementNode? ==> children[i].element.Valid()
      modifies ElementsOf(children)`parentNode
      ensures Valid()
      ensures this.tagName == tagName && this.document == document && this.defaultStyle == defaultStyle
      ensures this.children == children
      ensures parentNode == null && !notificationsSuspended && attributes == map[] && id == None
      ensures localStyle == None && currentStyle == None && computedStyles == None && !hasMouseOver
      ensures forall i :: 0 <= i < |children| && children[i].ElementNode? ==> children[i].element.parentNode == this
    {
      this.tagName := tagName;
      this.document := document;
      this.defaultStyle := defaultStyle;
      this.children := children;
      Descendants := Below(children);
      parentNode := null;
      notificationsSuspended := false;
      attributes := map[];
      id := None;
      localStyle := None;
      currentStyle := None;
      computedStyles := None;
      hasMouseOver := false;
      new;
      Adopt(children, this);
      forall i | 0 <= i < |children| && children[i].ElementNode?
        ensures children[i].element in Descendants && children[i].element.Descendants <= Descendants
      {
        BelowChild(children, i);
      }
    }

    lemma ChildInside(i: nat)
      requires Valid() && i < |children| && children[i].ElementNode?
      ensures children[i].element.Valid()
      ensures children[i].element.Repr() <= Descendants
      ensures children[i].element.Descendants < Descendants
    {
    }

    /** The tables an attribute assignment may write. */
    function DocFrame(normalName: string): set<Document> {
      if document != null && (normalName == "id" || normalName == "name") then {document} else {}
    }

    function DocSet(): set<Document> {
      if document == null then {} else {document}
    }

    // ---------------------------------------------------------------
    // Attribute store (ElementImpl)
    // ---------------------------------------------------------------

    /** `getAttribute`: the value stored under the normalised name; null
        both for a missing entry and for an entry holding null. */
    function GetAttribute(name: string): (r: Option<string>)
      reads this`attributes
      ensures r.Some? ==> HasAttribute(name)
      ensures HasAttribute(name) ==> r == attributes[NormalizeAttributeName(name)]
    {
      Get(attributes, name)
    }

    /** `hasAttribute`: an entry of any value, null included, exists under
        the normalised name. */
    function HasAttribute(name: string): (r: bool)
      reads this`attributes
      ensures r <==> NormalizeAttributeName(name) in attributes
    {
      Has(attributes, name)
    }

    /** `hasAttributes`: a missing map counts as empty. */
    function HasAttributes(): (r: bool)
      reads this`attributes
      ensures r <==> attributes != map[]
    {
      |attributes| > 0
    }

    /** `getAttributeAsBoolean`: the attribute has a non-null value. */
    function GetAttributeAsBoolean(name: string): (r: bool)
      reads this`attributes
      ensures r ==> HasAttribute(name)
      ensures HasAttribute(name) ==> (r <==> attributes[NormalizeAttributeName(name)] != None)
    {
      GetAttribute(name).Some?
    }

    /** `chain` lists the elements above this one, nearest first: each is the
        parent node of the one before, and the parent node of the last is not
        an element (the document, or no parent at all). */
    ghost predicate ParentChain(chain: seq<Element>)
      reads this, chain
      decreases |chain|
    {
      if |chain| == 0 then !(parentNode is Element)
      else parentNode == chain[0] && chain[0].ParentChain(chain[1..])
    }

    /** `getAncestor`: the nearest element above this one that matches the
        lowered tag name (any element for "*"), or null when none does. */
    function GetAncestor(elementTL: string, ghost chain: seq<Element>): (r: Element?)
      requires ParentChain(chain)
      reads this, chain
      ensures r == null <==> forall i :: 0 <= i < |chain| ==> !MatchesTag(chain[i], elementTL)
      ensures r != null ==> exists i :: 0 <= i < |chain| && chain[i] == r && FirstMatch(chain, i, elementTL)
      decreases |chain|
    {
      if parentNode is Element then
        var parentElement := parentNode as Element;
        if elementTL == "*" then parentElement
        else if elementTL == Lower(parentElement.tagName) then parentElement
        else
          var r := parentElement.GetAncestor(elementTL, chain[1..]);
          assert r != null ==> exists i :: 0 <= i < |chain| && chain[i] == r && FirstMatch(chain, i, elementTL) by {
            if r != null {
              var i :| 0 <= i < |chain[1..]| && chain[1..][i] == r && FirstMatch(chain[1..], i, elementTL);
              assert chain[i + 1] == r && FirstMatch(chain, i + 1, elementTL);
            }
          }
          r
      else null
    }

    /** `getParent`: the parent node when it is an element matching the
        lowered tag name (any element for "*"), and null otherwise. */
    function GetParent(elementTL: string): (r: Element?)
      reads this`parentNode
      ensures r != null ==> r == parentNode && MatchesTag(r, elementTL)
      ensures r == null ==> !(parentNode is Element) || !MatchesTag(parentNode as Element, elementTL)
    {
      if parentNode is Element then
        var parentElement := parentNode as Element;
        if elementTL == "*" then parentElement
        else if elementTL == Lower(parentElement.tagName) then parentElement
        else null
      else null
    }

    /** `getAttributeNode`: an attribute node for a non-null value, marked as
        an id exactly when the normalised name is "id". */
    function GetAttributeNode(name: string): (r: Option<Attr>)
      reads this`attributes
      ensures r.Some? <==> GetAttribute(name).Some?
      ensures r.Some? ==> r.value.name == NormalizeAttributeName(name) && r.value.value == GetAttribute(name)
      ensures r.Some? ==> (r.value.isId <==> NormalizeAttributeName(name) == "id")
    {
      var normalName := NormalizeAttributeName(name);
      var v := Get(attributes, name);
      if v.Some? then Some(Attr(normalName, v, normalName == "id")) else None
    }

    /** `getId`: the id field, "" when it was never set. */
    function GetId(): (r: string)
      reads this`id
      ensures id.None? ==> r == ""
      ensures id.Some? ==> r == id.value
    {
      id.GetOr("")
    }

    /** `getClassName`: the class attribute, "" when it has no value. */
    function GetClassName(): (r: string)
      reads this`attributes
      ensures GetAttribute("class").None? ==> r == ""
      ensures GetAttribute("class").Some? ==> r == GetAttribute("class").value
    {
      GetAttribute("class").GetOr("")
    }

    /** `equalAttributes`: equal maps, and false for a node that is not an element. */
    function EqualAttributes(arg: Node): (r: bool)
      reads this`attributes, if arg.ElementNode? then {arg.element} else {}
      ensures r ==> arg.ElementNode?
      ensures r ==> forall n :: GetAttribute(n) == arg.element.GetAttribute(n) && HasAttribute(n) == arg.element.HasAttribute(n)
    {
      arg.ElementNode? && attributes == arg.element.attributes
    }

    /** `setIdAttribute`: only the "id" attribute may be the id attribute. */
    function SetIdAttribute(name: string, isId: bool): (r: Outcome<DomError>)
      ensures r.Pass? <==> NormalizeAttributeName(name) == "id"
      ensures r.Fail? ==> r.error == NotSupportedErr
    {
      if NormalizeAttributeName(name) != "id" then Fail(NotSupportedErr) else Pass
    }

    /** `setIdAttributeNode`: as `setIdAttribute`, on the node's name. */
    function SetIdAttributeNode(idAttr: Attr, isId: bool): (r: Outcome<DomError>)
      ensures r.Pass? <==> NormalizeAttributeName(idAttr.name) == "id"
      ensures r.Fail? ==> r.error == NotSupportedErr
    {
      SetIdAttribute(idAttr.name, isId)
    }

    /** What the base `assignAttributeField` does: "id" sets the id field;
        "id" and "name" register the element in the document's id table, and
        "name" also in its name table, after removing the entry under the
        name attribute's current value. */
    twostate predicate Registered(normalName: string, value: Option<string>)
      reads this`id, this`attributes, DocSet()
    {
      id == (if normalName == "id" then value else old(id)) &&
      (document != null && (normalName == "id" || normalName == "name") ==>
         document.idTable == old(document.idTable)[value := this] &&
         document.nameTable ==
           (if normalName == "name"
            then NameTableAfter(old(document.nameTable), Get(attributes, "name"), value, this)
            else old(document.nameTable)))
    }

    /** What the HTML `assignAttributeField` does to the style slots before
        the base registration. */
    twostate predicate StylesInvalidated(normalName: string)
      reads this`notificationsSuspended, this`localStyle, Repr()`currentStyle, Repr()`computedStyles
    {
      if !notificationsSuspended then
        localStyle == (if normalName == "style" then None else old(localStyle)) &&
        SubtreeStylesForgotten()
      else if normalName == "style" then
        localStyle == None && currentStyle == None && computedStyles == None &&
        (forall e :: e in Descendants ==> e.currentStyle == old(e.currentStyle) && e.computedStyles == old(e.computedStyles))
      else
        localStyle == old(localStyle) &&
        (forall e :: e in Repr() ==> e.currentStyle == old(e.currentStyle) && e.computedStyles == old(e.computedStyles))
    }

    /** No element of the subtree holds a current or a computed style. */
    ghost predicate SubtreeStylesForgotten()
      reads Repr()`currentStyle, Repr()`computedStyles
    {
      forall e :: e in Repr() ==> e.currentStyle == None && e.computedStyles == None
    }

    /** `ElementImpl.assignAttributeField`: the id field and the document tables. */
    method RegisterIdOrName(normalName: string, value: Option<string>)
      modifies this`id, DocFrame(normalName)
      ensures Registered(normalName, value)
    {
      if normalName == "id" || normalName == "name" {
        var isName := normalName == "name";
        if !isName {
          id := value;
        }
        if document != null {
          document.idTable := document.idTable[value := this];
          if isName {
            var oldName := GetAttribute("name");
            if oldName.Some? {
              document.nameTable := document.nameTable - {oldName};
            }
            document.nameTable := document.nameTable[value := this];
          }
        }
      }
    }

    /** `HTMLElementImpl.assignAttributeField`: invalidate, then register. */
    method AssignAttributeField(normalName: string, value: Option<string>)
      requires Valid()
      modifies this`localStyle, Repr()`currentStyle, Repr()`computedStyles, this`id, DocFrame(normalName)
      ensures StylesInvalidated(normalName)
      ensures Registered(normalName, value)
    {
      InvalidateStyles(normalName);
      label invalidated:
      RegisterIdOrName(normalName, value);
      assert unchanged@invalidated(this`localStyle, Repr()`currentStyle, Repr()`computedStyles);
    }

    /** The invalidation half of `HTMLElementImpl.assignAttributeField`. */
    method InvalidateStyles(normalName: string)
      requires Valid()
      modifies this`localStyle, Repr()`currentStyle, Repr()`computedStyles
      ensures StylesInvalidated(normalName)
    {
      if !notificationsSuspended {
        InformInvalidAttribute(normalName);
      } else if normalName == "style" {
        ForgetLocalStyle();
      }
    }

    /** `setAttribute`: store under the normalised name, then assign. */
    method SetAttribute(name: string, value: Option<string>)
      requires Valid()
      modifies this`attributes, this`localStyle, Repr()`currentStyle, Repr()`computedStyles, this`id
      modifies DocFrame(NormalizeAttributeName(name))
      ensures attributes == Put(old(attributes), name, value)
      ensures StylesInvalidated(NormalizeAttributeName(name))
      ensures Registered(NormalizeAttributeName(name), value)
      ensures document != null && NormalizeAttributeName(name) == "name" ==>
        document.nameTable == old(document.nameTable)[value := this]
    {
      var normalName := NormalizeAttributeName(name);
      attributes := attributes[normalName := value];
      AssignAttributeField(normalName, value);
      if document != null && normalName == "name" {
        assert NormalizeAttributeName("name") == "name";
        assert Get(attributes, "name") == value;
        if value.Some? {
          assert (old(document.nameTable) - {value})[value := this] == old(document.nameTable)[value := this];
        }
      }
    }

    /** The registration `assignAttributeField` evidently intends: the name
        table entry removed is the one under `previous`, the name
        attribute's value before the assignment. */
    method RegisterIdOrNameFrom(normalName: string, value: Option<string>, previous: Option<string>)
      modifies this`id, DocFrame(normalName)
      ensures id == (if normalName == "id" then value else old(id))
      ensures document != null && (normalName == "id" || normalName == "name") ==>
        document.idTable == old(document.idTable)[value := this] &&
        document.nameTable ==
          (if normalName == "name" then NameTableAfter(old(document.nameTable), previous, value, this)
           else old(document.nameTable))
    {
      if normalName == "id" || normalName == "name" {
        var isName := normalName == "name";
        if !isName {
          id := value;
        }
        if document != null {
          document.idTable := document.idTable[value := this];
          if isName {
            if previous.Some? {
              document.nameTable := document.nameTable - {previous};
            }
            document.nameTable := document.nameTable[value := this];
          }
        }
      }
    }

    /** `setAttribute` as evidently intended: the previous name is read
        before the map is updated, so its entry leaves the name table. */
    method SetAttributeIntended(name: string, value: Option<string>)
      requires Valid()
      modifies this`attributes, this`localStyle, Repr()`currentStyle, Repr()`computedStyles, this`id
      modifies DocFrame(NormalizeAttributeName(name))
      ensures attributes == Put(old(attributes), name, value)
      ensures StylesInvalidated(NormalizeAttributeName(name))
      ensures id == (if NormalizeAttributeName(name) == "id" then value else old(id))
      ensures document != null && NormalizeAttributeName(name) == "name" ==>
        document.nameTable == NameTableAfter(old(document.nameTable), old(GetAttribute("name")), value, this)
      ensures (document != null && NormalizeAttributeName(name) == "name" &&
               old(GetAttribute("name")).Some? && old(GetAttribute("name")) != value) ==>
        old(GetAttribute("name")) !in document.nameTable && document.nameTable[value] == this
    {
      var normalName := NormalizeAttributeName(name);
      var previous := GetAttribute("name");
      attributes := attributes[normalName := value];
      InvalidateStyles(normalName);
      label invalidated:
      RegisterIdOrNameFrom(normalName, value, previous);
      assert unchanged@invalidated(this`localStyle, Repr()`currentStyle, Repr()`computedStyles);
      if document != null && normalName == "name" && previous.Some? && previous != value {
        NameTableIntended(old(document.nameTable), previous, value, this);
      }
    }

    /** `setAttributeNode`: as `setAttribute` with the node's name and value;
        the node itself is returned. */
    method SetAttributeNode(newAttr: Attr) returns (r: Attr)
      requires Valid()
      modifies this`attributes, this`localStyle, Repr()`currentStyle, Repr()`computedStyles, this`id
      modifies DocFrame(NormalizeAttributeName(newAttr.name))
      ensures r == newAttr
      ensures attributes == Put(old(attributes), newAttr.name, newAttr.value)
      ensures StylesInvalidated(NormalizeAttributeName(newAttr.name))
      ensures Registered(NormalizeAttributeName(newAttr.name), newAttr.value)
    {
      var normalName := NormalizeAttributeName(newAttr.name);
      attributes := attributes[normalName := newAttr.value];
      AssignAttributeField(normalName, newAttr.value);
      r := newAttr;
    }

    /** `setClassName`. */
    method SetClassName(className: string)
      requires Valid()
      modifies this`attributes, this`localStyle, Repr()`currentStyle, Repr()`computedStyles, this`id
      ensures attributes == old(attributes)["class" := Some(className)] && id == old(id)
      ensures GetClassName() == className
      ensures StylesInvalidated("class")
    {
      assert NormalizeAttributeName("class") == "class";
      SetAttribute("class", Some(className));
    }

    /** `removeAttribute`: deletes the entry and nothing else; the id field,
        the document tables and the style slots are left alone. */
    method RemoveAttribute(name: string)
      modifies this`attributes
      ensures attributes == Delete(old(attributes), name)
    {
      attributes := attributes - {NormalizeAttributeName(name)};
    }

    /** The removal evidently intended: after the entry is deleted the style
        slots are invalidated as for an assignment, and removing "id" also
        clears the id field. */
    method RemoveAttributeIntended(name: string)
      requires Valid()
      modifies this`attributes, this`localStyle, Repr()`currentStyle, Repr()`computedStyles, this`id
      ensures attributes == Delete(old(attributes), name)
      ensures StylesInvalidated(NormalizeAttributeName(name))
      ensures id == if NormalizeAttributeName(name) == "id" then None else old(id)
    {
      var normalName := NormalizeAttributeName(name);
      attributes := attributes - {normalName};
      InvalidateStyles(normalName);
      if normalName == "id" {
        id := None;
      }
    }

    /** After the intended removal of "style" the next `getStyle` builds the
        local style afresh, from no style attribute; after the removal of
        "id", `getId` is "". */
    method RemoveThenGetStyle(name: string, parse: Parser) returns (r: Properties)
      requires Valid()
      modifies this`attributes, this`localStyle, Repr()`currentStyle, Repr()`computedStyles, this`id
      ensures attributes == Delete(old(attributes), name)
      ensures NormalizeAttributeName(name) == "style" ==> r == LocalStyleOf(GetAttribute("style"), parse) == Empty
      ensures NormalizeAttributeName(name) == "id" ==> GetId() == ""
    {
      RemoveAttributeIntended(name);
      r := GetStyle(parse);
      assert NormalizeAttributeName("style") == "style";
    }

    /** `removeAttributeNode`: deletes the entry named like the node and
        returns a node for the value it held, or null. */
    method RemoveAttributeNode(oldAttr: Attr) returns (r: Option<Attr>)
      modifies this`attributes
      ensures attributes == Delete(old(attributes), oldAttr.name)
      ensures r == old(GetAttributeNode(oldAttr.name))
    {
      var normalName := NormalizeAttributeName(oldAttr.name);
      var oldValue := if normalName in attributes then attributes[normalName] else None;
      attributes := attributes - {normalName};
      r := if oldValue.Some? then Some(Attr(normalName, oldValue, normalName == "id")) else None;
    }

    /** `appendOuterHTMLImpl`, with the map iterated in `order` (each key
        once, as `forEach` visits them), values
        encoded by `encode` and the children's HTML given as `inner`. */
    method AppendOuterHtml(order: seq<string>, encode: string -> string, inner: string) returns (r: string)
      requires IsKeyOrder(attributes, order)
      ensures r == "<" + Upper(tagName) + AttributesText(attributes, order, encode) +
        (if |children| == 0 then "/>" else ">" + inner + "</" + Upper(tagName) + ">")
    {
      var tag := Upper(tagName);
      var buffer := "<" + tag;
      for i := 0 to |order|
        invariant buffer == "<" + tag + AttributesText(attributes, order[..i], encode)
      {
        var k := order[i];
        assert order[..i + 1][..i] == order[..i];
        if k in attributes && attributes[k].Some? {
          buffer := buffer + AttributeText(k, attributes[k].value, encode);
        }
      }
      assert order[..|order|] == order;
      if |children| == 0 {
        buffer := buffer + "/>";
      } else {
        buffer := buffer + ">" + inner + "</" + tag + ">";
      }
      r := buffer;
    }

    // ---------------------------------------------------------------
    // Text and traversal
    // ---------------------------------------------------------------

    /** The text `getRawInnerText` gathers from this element. */
    function InnerText(includeComment: bool): string
      requires Valid()
      decreases Descendants, 2
    {
      KeptText(ChildTexts(includeComment, |children|))
    }

    /** What each of the first `n` children offers, in order. */
    function ChildTexts(includeComment: bool, n: nat): (r: seq<string>)
      requires Valid() && n <= |children|
      ensures |r| == n
      decreases Descendants, 1, n
    {
      if n == 0 then [] else ChildTexts(includeComment, n - 1) + [ChildText(includeComment, n - 1)]
    }

    /** The text child `i` offers: its own text, an element's gathered
        text, or a comment's text when comments are included. */
    function ChildText(includeComment: bool, i: nat): string
      requires Valid() && i < |children|
      decreases Descendants, 0
    {
      match children[i]
      case TextNode(t) => t
      case ElementNode(c) => c.InnerText(includeComment)
      case CommentNode(t) => if includeComment then t else ""
      case OtherNode => ""
    }

    /** Only non-blank pieces are kept, so the text is blank only when empty. */
    lemma InnerTextBlank(includeComment: bool)
      requires Valid()
      ensures IsBlank(Some(InnerText(includeComment))) <==> InnerText(includeComment) == ""
    {
      KeptTextBlank(ChildTexts(includeComment, |children|));
    }

    /** One more child's text, kept or dropped. */
    lemma ChildTextsStep(includeComment: bool, i: nat, txt: string)
      requires Valid() && i < |children| && txt == ChildText(includeComment, i)
      ensures KeptText(ChildTexts(includeComment, i + 1)) == KeptText(ChildTexts(includeComment, i)) + Kept(txt)
    {
      KeptTextSnoc(ChildTexts(includeComment, i), txt);
    }

    /** `getRawInnerText`. */
    method RawInnerText(includeComment: bool) returns (r: string)
      requires Valid()
      ensures r == InnerText(includeComment)
      decreases Descendants
    {
      var sb := "";
      for i := 0 to |children|
        invariant sb == KeptText(ChildTexts(includeComment, i))
      {
        var txt := "";
        match children[i] {
          case TextNode(t) =>
            txt := t;
          case ElementNode(c) =>
            ChildInside(i);
            txt := c.RawInnerText(includeComment);
          case CommentNode(t) =>
            if includeComment {
              txt := t;
            }
          case OtherNode =>
        }
        ChildTextsStep(includeComment, i, txt);
        // a blank piece adds nothing
        sb := sb + Kept(txt);
      }
      r := sb;
    }

    /** The nodes `visit` reaches from this element: the element itself,
        then each child's subtree in order. */
    function Preorder(): (r: seq<Node>)
      requires Valid()
      ensures |r| >= 1 && r[0] == ElementNode(this)
      decreases Descendants, 1
    {
      [ElementNode(this)] + ChildrenPreorder(|children|)
    }

    function ChildrenPreorder(n: nat): seq<Node>
      requires Valid() && n <= |children|
      decreases Descendants, 0, n
    {
      if n == 0 then []
      else
        var sub := match children[n - 1]
          case ElementNode(c) => c.Preorder()
          case other => [other];
        ChildrenPreorder(n - 1) + sub
    }

    // ---------------------------------------------------------------
    // Style cache (HTMLElementImpl)
    // ---------------------------------------------------------------

    /** The class names handed to the aggregator: `null` for a blank class. */
    function ClassArray(): Option<seq<string>>
      reads this`attributes
    {
      var classNames := GetClassName();
      if NotBlank(Some(classNames)) then Some(Tokenize(classNames)) else None
    }

    /** The declaration blocks of the rules that match this element. */
    function StyleRules(mouseOver: bool): seq<Declaration>
      reads this`parentNode, this`attributes
    {
      if parentNode == null || document == null then []
      else document.aggregator(tagName, ClassArray(), mouseOver).rules
    }

    /** `hasMouseOver` after gathering rules: the aggregator's answer when it
        was asked, and unchanged otherwise. */
    function HoverAfter(mouseOver: bool): bool
      reads this`parentNode, this`attributes, this`hasMouseOver
    {
      if parentNode == null || document == null then hasMouseOver
      else document.aggregator(tagName, ClassArray(), mouseOver).mouseOver
    }

    function DefaultDeclarations(): seq<Declaration> {
      if defaultStyle.Some? then defaultStyle.value.declarations else []
    }

    /** `findStyleDeclarations`: nothing without a document; otherwise the
        aggregator's rules, and `hasMouseOver` takes its hover answer. */
    method FindStyleDeclarations(elementName: string, classes: Option<seq<string>>, mouseOver: bool)
      returns (r: seq<Declaration>)
      modifies this`hasMouseOver
      ensures document == null ==> r == [] && hasMouseOver == old(hasMouseOver)
      ensures document != null ==>
        r == document.aggregator(elementName, classes, mouseOver).rules &&
        hasMouseOver == document.aggregator(elementName, classes, mouseOver).mouseOver
    {
      if document == null {
        return [];
      }
      var m := document.aggregator(elementName, classes, mouseOver);
      r := m.rules;
      hasMouseOver := m.mouseOver;
    }

    /** `addStyleSheetDeclarations`: the argument unchanged without a parent;
        otherwise the matching rules' blocks appended in order, creating a
        properties object when one is needed. */
    method AddStyleSheetDeclarations(style: Option<Properties>, mouseOver: bool) returns (r: Option<Properties>)
      modifies this`hasMouseOver
      ensures parentNode == null ==> r == style && hasMouseOver == old(hasMouseOver)
      ensures r == WithRules(style, StyleRules(mouseOver))
      ensures hasMouseOver == old(HoverAfter(mouseOver))
    {
      if parentNode == null {
        return style;
      }
      var rules := FindStyleDeclarations(tagName, ClassArray(), mouseOver);
      ghost var hover := hasMouseOver;
      r := style;
      for i := 0 to |rules|
        invariant r == WithRules(style, rules[..i]) && hasMouseOver == hover
      {
        assert rules[..i + 1] == rules[..i] + [rules[i]];
        WithRulesStep(style, rules[..i], rules[i]);
        if r.None? {
          r := Some(Empty);
        }
        r := Some(AddDeclaration(r.value, rules[i]));
      }
      assert rules[..|rules|] == rules;
    }

    /** `getStyle`: the cached local style, or a new one built from the style
        attribute and cached. */
    method GetStyle(parse: Parser) returns (r: Properties)
      modifies this`localStyle
      ensures old(localStyle).Some? ==> r == old(localStyle).value && localStyle == old(localStyle)
      ensures old(localStyle).None? ==> r == LocalStyleOf(GetAttribute("style"), parse) && localStyle == Some(r)
    {
      if localStyle.Some? {
        return localStyle.value;
      }
      var sds := Empty;
      var style := GetAttribute("style");
      if NotBlank(style) {
        var sd := parse(style.value);
        if sd.Some? {
          sds := AddDeclaration(sds, sd.value);
        }
      }
      localStyle := Some(sds);
      r := sds;
    }

    /** The synchronized install at the end of `getCurrentStyle`: a value
        already in the slot wins over the one just computed. */
    method InstallCurrentStyle(sds: Properties) returns (r: Properties)
      modifies this`currentStyle
      ensures old(currentStyle).Some? ==> r == old(currentStyle).value && currentStyle == old(currentStyle)
      ensures old(currentStyle).None? ==> r == sds && currentStyle == Some(sds)
    {
      if currentStyle.Some? {
        return currentStyle.value;
      }
      currentStyle := Some(sds);
      r := sds;
    }

    /** `getCurrentStyle`: the cached value while the slot is filled;
        otherwise defaults, then the matching rules, with the local style
        as fallback, installed in the slot. */
    method GetCurrentStyle(parse: Parser) returns (r: Properties)
      modifies this`currentStyle, this`localStyle, this`hasMouseOver
      ensures old(currentStyle).Some? ==>
        r == old(currentStyle).value && currentStyle == old(currentStyle) &&
        localStyle == old(localStyle) && hasMouseOver == old(hasMouseOver)
      ensures old(currentStyle).None? ==>
        localStyle == (if old(localStyle).Some? then old(localStyle) else Some(LocalStyleOf(GetAttribute("style"), parse))) &&
        r == Properties(DefaultDeclarations() + StyleRules(false), localStyle) &&
        currentStyle == Some(r) && hasMouseOver == old(HoverAfter(false))
    {
      if currentStyle.Some? {
        return currentStyle.value;
      }
      var sds := AddStyleSheetDeclarations(defaultStyle, false);
      var local := GetStyle(parse);
      var props := WithLocal(sds.GetOr(Empty), local);
      r := InstallCurrentStyle(props);
    }

    /** The synchronized install at the end of `getComputedStyle`: the map is
        created on first use, and an entry already under the key wins. */
    method InstallComputedStyle(key: string, sds: Properties) returns (r: Properties)
      modifies this`computedStyles
      ensures old(computedStyles).Some? && key in old(computedStyles).value ==>
        r == old(computedStyles).value[key] && computedStyles == old(computedStyles)
      ensures !(old(computedStyles).Some? && key in old(computedStyles).value) ==>
        r == sds && computedStyles == Some(old(computedStyles).GetOr(map[])[key := sds])
    {
      if computedStyles.None? {
        computedStyles := Some(map[]);
      } else if key in computedStyles.value {
        return computedStyles.value[key];
      }
      computedStyles := Some(computedStyles.value[key := sds]);
      r := sds;
    }

    /** `getComputedStyle`: one cached entry per pseudo-element (`null` is
        ""). A new entry takes defaults and the matching rules; when there
        are neither, it copies the local style's blocks. */
    method GetComputedStyle(pseudoElement: Option<string>, parse: Parser) returns (r: Properties)
      modifies this`computedStyles, this`localStyle, this`hasMouseOver
      ensures var key := pseudoElement.GetOr("");
        old(computedStyles).Some? && key in old(computedStyles).value ==>
          r == old(computedStyles).value[key] && computedStyles == old(computedStyles) &&
          localStyle == old(localStyle) && hasMouseOver == old(hasMouseOver)
      ensures var key := pseudoElement.GetOr("");
        !(old(computedStyles).Some? && key in old(computedStyles).value) ==>
          localStyle == (if old(localStyle).Some? then old(localStyle) else Some(LocalStyleOf(GetAttribute("style"), parse))) &&
          r == Properties(
            if defaultStyle.None? && StyleRules(false) == [] then localStyle.value.declarations
            else DefaultDeclarations() + StyleRules(false),
            localStyle) &&
          computedStyles == Some(old(computedStyles).GetOr(map[])[key := r]) &&
          hasMouseOver == old(HoverAfter(false))
    {
      var key := pseudoElement.GetOr("");
      if computedStyles.Some? && key in computedStyles.value {
        return computedStyles.value[key];
      }
      var sds := AddStyleSheetDeclarations(defaultStyle, false);
      var local := GetStyle(parse);
      var props := if sds.None? then Properties(local.declarations, None) else sds.value;
      props := WithLocal(props, local);
      r := InstallComputedStyle(key, props);
    }

    /** `forgetLocalStyle`: all three slots are cleared. */
    method ForgetLocalStyle()
      modifies this`localStyle, this`currentStyle, this`computedStyles
      ensures localStyle == None && currentStyle == None && computedStyles == None
    {
      currentStyle := None;
      localStyle := None;
      computedStyles := None;
    }

    /** `forgetStyle(deep)`: current and computed styles are cleared, here
        and, when `deep`, in every element below; local styles stay. */
    method ForgetStyle(deep: bool)
      requires Valid()
      modifies Repr()`currentStyle, Repr()`computedStyles
      decreases Descendants, 1
      ensures currentStyle == None && computedStyles == None
      ensures deep ==> SubtreeStylesForgotten()
      ensures !deep ==> forall e :: e in Descendants ==>
        e.currentStyle == old(e.currentStyle) && e.computedStyles == old(e.computedStyles)
    {
      currentStyle := None;
      computedStyles := None;
      if deep {
        ForgetChildren();
      }
    }

    /** The `nodeList.forEach` of a deep `forgetStyle`: every element child
        forgets its subtree. */
    method ForgetChildren()
      requires Valid()
      modifies Descendants`currentStyle, Descendants`computedStyles
      decreases Descendants, 0
      ensures forall e :: e in Descendants ==> e.currentStyle == None && e.computedStyles == None
    {
      ghost var done: set<Element> := {};
      for i := 0 to |children|
        invariant done == Below(children[..i])
        invariant forall e :: e in done ==> e.currentStyle == None && e.computedStyles == None
      {
        var n := children[i];
        assert Below(children[..i + 1]) == done + (if n.ElementNode? then n.element.Repr() else {}) by {
          assert children[..i + 1] == children[..i] + [n];
          BelowSnoc(children[..i], n);
        }
        if n.ElementNode? {
          ChildInside(i);
          n.element.ForgetStyle(true);
          done := done + n.element.Repr();
        }
      }
      assert children[..|children|] == children;
    }

    /** `informInvalid`: a shallow forget. */
    method InformInvalid()
      requires Valid()
      modifies Repr()`currentStyle, Repr()`computedStyles
      ensures currentStyle == None && computedStyles == None
      ensures forall e :: e in Descendants ==>
        e.currentStyle == old(e.currentStyle) && e.computedStyles == old(e.computedStyles)
    {
      ForgetStyle(false);
    }

    /** `informInvalidAttibute`: the local style goes only for "style"; the
        current and computed styles go over the whole subtree. */
    method InformInvalidAttribute(normalName: string)
      requires Valid()
      modifies this`localStyle, Repr()`currentStyle, Repr()`computedStyles
      ensures localStyle == (if normalName == "style" then None else old(localStyle))
      ensures SubtreeStylesForgotten()
    {
      if normalName == "style" {
        ForgetLocalStyle();
      }
      ForgetStyle(true);
    }

    /** `setMouseOver`: nothing unless hover rules took part; on entering,
        the current slot is rebuilt from defaults and hover rules (and may
        become empty); on leaving, the subtree is forgotten. */
    method SetMouseOver(mouseOver: bool)
      requires Valid()
      modifies this`hasMouseOver, Repr()`currentStyle, Repr()`computedStyles
      ensures !old(hasMouseOver) ==>
        hasMouseOver == old(hasMouseOver) &&
        forall e :: e in Repr() ==> e.currentStyle == old(e.currentStyle) && e.computedStyles == old(e.computedStyles)
      ensures old(hasMouseOver) && mouseOver ==>
        currentStyle == WithRules(defaultStyle, StyleRules(true)) && hasMouseOver == old(HoverAfter(true)) &&
        computedStyles == old(computedStyles) &&
        forall e :: e in Descendants ==> e.currentStyle == old(e.currentStyle) && e.computedStyles == old(e.computedStyles)
      ensures old(hasMouseOver) && !mouseOver ==> hasMouseOver && SubtreeStylesForgotten()
    {
      if hasMouseOver {
        if mouseOver {
          currentStyle := AddStyleSheetDeclarations(defaultStyle, true);
        } else {
          ForgetStyle(true);
        }
      }
    }
  }

  /** The local style `getStyle` builds: one block parsed from a non-blank
      style attribute; nothing for a blank one or a parse failure, which is
      logged rather than raised. */
  function LocalStyleOf(style: Option<string>, parse: Parser): (r: Properties)
    ensures r.local == None
    ensures IsBlank(style) ==> r == Empty
    ensures NotBlank(style) && parse(style.value).None? ==> r == Empty
    ensures NotBlank(style) && parse(style.value).Some? ==> r.declarations == [parse(style.value).value]
  {
    if NotBlank(style) && parse(style.value).Some? then AddDeclaration(Empty, parse(style.value).value)
    else Empty
  }

  /** As written, `removeAttribute("style")` keeps the local style built
      from the removed attribute, which is not what `getStyle` builds from
      the attributes that remain. */
  lemma StaleStyleAfterRemove(attrs: AttributeMap, name: string, parse: Parser)
    requires NormalizeAttributeName(name) == "style"
    requires NotBlank(Get(attrs, "style")) && parse(Get(attrs, "style").value).Some?
    ensures LocalStyleOf(Get(Delete(attrs, name), "style"), parse) == Empty
    ensures LocalStyleOf(Get(attrs, "style"), parse) != Empty
  {
    assert NormalizeAttributeName("style") == "style";
  }
}
