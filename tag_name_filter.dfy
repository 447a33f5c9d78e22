/** `TagNameFilter`: a node filter that keeps the elements with a given tag
    name, ignoring letter case. */
module TagNameFilters {
  import opened Wrappers
  import opened JavaText
  import opened Dom

  /** The filter; its name is fixed when it is made. */
  datatype TagNameFilter = TagNameFilter(name: string) {

    /** `accept`: only elements pass, and only those whose tag name equals
        the filter name ignoring case. */
    function Accept(node: Node): (r: bool)
      ensures r ==> node.ElementNode?
      ensures node.ElementNode? ==> (r <==> Lower(name) == Lower(node.element.tagName))
    {
      EqualsIgnoreCaseIsLowerEquality(name, NodeName(node));
      node.ElementNode? && EqualsIgnoreCase(name, Some(node.element.tagName))
    }
  }

  /** Neither the case of the filter name nor that of the tag name matters. */
  lemma AcceptIgnoresCase(a: string, b: string, node: Node)
    requires Lower(a) == Lower(b)
    ensures TagNameFilter(a).Accept(node) == TagNameFilter(b).Accept(node)
    ensures TagNameFilter(a).Accept(node) == TagNameFilter(Upper(b)).Accept(node)
  {
    var ub := Upper(b);
    assert Lower(ub) == Lower(b) by {
      forall k | 0 <= k < |b| ensures Lower(ub)[k] == Lower(b)[k] {
        assert LowerChar(UpperChar(b[k])) == LowerChar(b[k]);
      }
    }
  }

  /** An element whose tag name is the filter name in any case passes. */
  lemma AcceptOwnName(name: string, e: Element)
    requires Lower(e.tagName) == Lower(name)
    ensures TagNameFilter(name).Accept(ElementNode(e))
  {
  }
}
