/**
 * `HTMLFormElementImpl`: the input controls of a form, found by visiting
 * the form's subtree in document order, and the input list `submit`
 * collects before it hands the form to the renderer context.
 */
module HtmlForm {
  import opened Wrappers
  import opened JavaText
  import opened Dom

  /** `isInput`: the node name, lower-cased, is one of the three control names. */
  predicate IsInput(n: Node) {
    var name := Lower(NodeName(n));
    name == "input" || name == "textarea" || name == "select"
  }

  /** Only elements are controls, and the letter case of the tag does not matter. */
  lemma IsInputOnElements(n: Node, m: Node)
    ensures IsInput(n) ==> n.ElementNode?
    ensures n.ElementNode? && m.ElementNode? && Lower(n.element.tagName) == Lower(m.element.tagName) ==>
      (IsInput(n) <==> IsInput(m))
  {
    if !n.ElementNode? {
      assert Lower(NodeName(n))[0] == '#';
    }
  }

  /** The controls among the nodes, in order. */
  function Inputs(ns: seq<Node>): (r: seq<Node>)
    ensures |r| <= |ns|
    ensures forall i :: 0 <= i < |r| ==> IsInput(r[i])
  {
    if ns == [] then []
    else Inputs(ns[..|ns| - 1]) + (if IsInput(ns[|ns| - 1]) then [ns[|ns| - 1]] else [])
  }

  lemma {:induction false} InputsAppend(a: seq<Node>, b: seq<Node>)
    ensures Inputs(a + b) == Inputs(a) + Inputs(b)
    decreases |b|
  {
    if b == [] {
      assert a + b == a;
    } else {
      var b' := b[..|b| - 1];
      assert (a + b)[..|a + b| - 1] == a + b';
      InputsAppend(a, b');
    }
  }

  /** One more node in visit order adds it when it is a control. */
  lemma InputsSnoc(nodes: seq<Node>, i: nat)
    requires i < |nodes|
    ensures Inputs(nodes[..i + 1]) == Inputs(nodes[..i]) + (if IsInput(nodes[i]) then [nodes[i]] else [])
  {
    assert nodes[..i + 1][..i] == nodes[..i];
  }

  /** A control that names itself `name` through its name attribute. */
  predicate NamedInput(n: Node, name: string)
    reads if n.ElementNode? then {n.element} else {}
  {
    IsInput(n) && n.ElementNode? && Get(n.element.attributes, "name") == Some(name)
  }

  /** One name/value pair `getFormInputs` hands out; the name may be null. */
  datatype FormInput = FormInput(name: Option<string>, value: string)

  /** What `getFormInputs` gives for an element; the model is handed it. */
  type InputSource = Element -> Option<seq<FormInput>>

  /** The inputs the visit collects from the nodes, or `None` when some
      element offers an input without a name. */
  function Collected(ns: seq<Node>, inputsOf: InputSource): Option<seq<FormInput>> {
    if ns == [] then Some([])
    else
      match Collected(ns[..|ns| - 1], inputsOf)
      case None => None
      case Some(acc) =>
        var n := ns[|ns| - 1];
        if n.ElementNode? && inputsOf(n.element).Some? then
          var fis := inputsOf(n.element).value;
          if forall k :: 0 <= k < |fis| ==> fis[k].name.Some? then Some(acc + fis) else None
        else Some(acc)
  }

  /** Some element offers an unnamed input. */
  predicate SomeUnnamed(ns: seq<Node>, inputsOf: InputSource) {
    exists i, k :: 0 <= i < |ns| && ns[i].ElementNode? && inputsOf(ns[i].element).Some? &&
      0 <= k < |inputsOf(ns[i].element).value| && inputsOf(ns[i].element).value[k].name.None?
  }

  /** Collection fails exactly when some element offers an unnamed input,
      and a collected list holds only named inputs. */
  lemma {:induction false} CollectedIff(ns: seq<Node>, inputsOf: InputSource)
    ensures Collected(ns, inputsOf).None? <==> SomeUnnamed(ns, inputsOf)
    ensures Collected(ns, inputsOf).Some? ==>
      forall k :: 0 <= k < |Collected(ns, inputsOf).value| ==> Collected(ns, inputsOf).value[k].name.Some?
    decreases |ns|
  {
    if ns != [] {
      var front := ns[..|ns| - 1];
      CollectedIff(front, inputsOf);
      if SomeUnnamed(front, inputsOf) {
        var i, k :| 0 <= i < |front| && front[i].ElementNode? && inputsOf(front[i].element).Some? &&
          0 <= k < |inputsOf(front[i].element).value| && inputsOf(front[i].element).value[k].name.None?;
        assert ns[i] == front[i];
      }
      if SomeUnnamed(ns, inputsOf) && !SomeUnnamed(front, inputsOf) {
        var i, k :| 0 <= i < |ns| && ns[i].ElementNode? && inputsOf(ns[i].element).Some? &&
          0 <= k < |inputsOf(ns[i].element).value| && inputsOf(ns[i].element).value[k].name.None?;
      }
      if !SomeUnnamed(ns, inputsOf) {
        forall i, k | 0 <= i < |front| && front[i].ElementNode? && inputsOf(front[i].element).Some? &&
          0 <= k < |inputsOf(front[i].element).value|
          ensures inputsOf(front[i].element).value[k].name.Some?
        {
          assert ns[i] == front[i];
        }
        var n := ns[|ns| - 1];
        if n.ElementNode? && inputsOf(n.element).Some? {
          var fis := inputsOf(n.element).value;
          forall k | 0 <= k < |fis| ensures fis[k].name.Some? {
            assert ns[|ns| - 1] == n;
          }
        }
      }
    }
  }

  /** Once collection has failed on a prefix it stays failed. */
  lemma {:induction false} CollectedPrefixFails(ns: seq<Node>, j: nat, inputsOf: InputSource)
    requires j <= |ns| && Collected(ns[..j], inputsOf).None?
    ensures Collected(ns, inputsOf).None?
    decreases |ns| - j
  {
    if j < |ns| {
      var front := ns[..|ns| - 1];
      assert front[..j] == ns[..j];
      CollectedPrefixFails(front, j, inputsOf);
    } else {
      assert ns[..j] == ns;
    }
  }

  /** How `submit` ends: stopped by the onsubmit handler, nothing to submit
      to, an IllegalStateException for an unnamed input, or the form handed
      to the context with its method and inputs. */
  datatype SubmitOutcome =
    | Cancelled
    | NoContext
    | UnnamedInput
    | Submitted(formMethod: string, inputs: seq<FormInput>)

  /** `n` is the first control in `nodes` named `name`. */
  predicate FirstNamed(nodes: seq<Node>, n: Node, name: string)
    reads ElementsOf(nodes)
  {
    exists i :: 0 <= i < |nodes| && nodes[i] == n && NamedInputAt(nodes, i, name) &&
      forall j :: 0 <= j < i ==> !NamedInputAt(nodes, j, name)
  }

  predicate NamedInputAt(nodes: seq<Node>, i: int, name: string)
    requires 0 <= i < |nodes|
    reads ElementsOf(nodes)
  {
    NamedInput(nodes[i], name)
  }

  /** The counting visit of `item` over the nodes in visit order. */
  method ItemIn(nodes: seq<Node>, index: int) returns (r: Option<Node>)
    ensures var inputs := Inputs(nodes);
      r == if 0 <= index < |inputs| then Some(inputs[index]) else None
  {
    var current := 0;
    for i := 0 to |nodes|
      invariant current == |Inputs(nodes[..i])|
      invariant index < 0 || current <= index
    {
      InputsSnoc(nodes, i);
      if IsInput(nodes[i]) {
        if current == index {
          InputsAppend(nodes[..i + 1], nodes[i + 1..]);
          assert nodes[..i + 1] + nodes[i + 1..] == nodes;
          return Some(nodes[i]);
        }
        current := current + 1;
      }
    }
    assert nodes[..|nodes|] == nodes;
    return None;
  }

  /** The search of `namedItem` over the nodes in visit order. */
  method NamedIn(nodes: seq<Node>, name: string) returns (r: Option<Node>)
    ensures r.None? ==> forall n <- nodes :: !NamedInput(n, name)
    ensures r.Some? ==> FirstNamed(nodes, r.value, name)
  {
    for i := 0 to |nodes|
      invariant forall j :: 0 <= j < i ==> !NamedInputAt(nodes, j, name)
    {
      if IsInput(nodes[i]) {
        IsInputOnElements(nodes[i], nodes[i]);
        if Get(nodes[i].element.attributes, "name") == Some(name) {
          assert NamedInputAt(nodes, i, name);
          return Some(nodes[i]);
        }
      }
      assert !NamedInputAt(nodes, i, name);
    }
    forall n <- nodes ensures !NamedInput(n, name) {
      var i :| 0 <= i < |nodes| && nodes[i] == n;
      assert !NamedInputAt(nodes, i, name);
    }
    return None;
  }

  /** The input-gathering visit of `submit` over the nodes in visit order:
      `None` where it throws for an unnamed input. */
  method CollectIn(nodes: seq<Node>, inputsOf: InputSource) returns (r: Option<seq<FormInput>>)
    ensures r == Collected(nodes, inputsOf)
  {
    var formInputs: seq<FormInput> := [];
    for i := 0 to |nodes|
      invariant Collected(nodes[..i], inputsOf) == Some(formInputs)
    {
      assert nodes[..i + 1][..i] == nodes[..i];
      var acc := formInputs;
      if nodes[i].ElementNode? {
        var fis := inputsOf(nodes[i].element);
        if fis.Some? {
          for j := 0 to |fis.value|
            invariant formInputs == acc + fis.value[..j]
            invariant forall k :: 0 <= k < j ==> fis.value[k].name.Some?
          {
            if fis.value[j].name.None? {
              CollectedPrefixFails(nodes, i + 1, inputsOf);
              return None;
            }
            formInputs := formInputs + [fis.value[j]];
          }
          assert fis.value[..|fis.value|] == fis.value;
        }
      }
    }
    assert nodes[..|nodes|] == nodes;
    return Some(formInputs);
  }

  /** The collection `getElements` creates (an `HTMLCollectionImpl` over the
      form with an input filter). */
  class HtmlCollection {
    const root: Element

    constructor (root: Element)
      ensures this.root == root
    {
      this.root := root;
    }
  }

  class Form {
    /** The form element itself. */
    const element: Element
    var elements: HtmlCollection?

    constructor (element: Element)
      ensures this.element == element && elements == null
    {
      this.element := element;
      elements := null;
    }

    /** `getElements`: made on first use, then the same object every time. */
    method GetElements() returns (r: HtmlCollection)
      modifies this`elements
      ensures elements == r && (old(elements) == null ==> r.root == element)
      ensures old(elements) != null ==> r == old(elements) && elements == old(elements)
      ensures old(elements) == null ==> fresh(r) && elements == r && r.root == element
    {
      var current := elements;
      if current == null {
        current := new HtmlCollection(element);
        elements := current;
      }
      return current;
    }

    /** `getMethod`: the method attribute, "GET" when it has no value. */
    function GetMethod(): (r: string)
      reads element`attributes
      ensures element.GetAttribute("method").None? ==> r == "GET"
      ensures element.GetAttribute("method").Some? ==> r == element.GetAttribute("method").value
    {
      element.GetAttribute("method").GetOr("GET")
    }

    /** `item`: the control at `index` in visit order, or `null`. */
    method Item(index: int) returns (r: Option<Node>)
      requires element.Valid()
      ensures var inputs := Inputs(element.Preorder());
        r == if 0 <= index < |inputs| then Some(inputs[index]) else None
    {
      r := ItemIn(element.Preorder(), index);
    }

    /** `namedItem`: the first control in visit order whose name attribute
        is `name`, or `null`. */
    method NamedItem(name: string) returns (r: Option<Node>)
      requires element.Valid()
      ensures r.None? ==> forall n <- element.Preorder() :: !NamedInput(n, name)
      ensures r.Some? ==> FirstNamed(element.Preorder(), r.value, name)
    {
      r := NamedIn(element.Preorder(), name);
    }

    /** `submit(extraFormInputs)` up to the call into the context.
        `onsubmit` is the handler's answer (`None` when there is no handler),
        `hasContext` whether a renderer context exists, and `inputsOf` what
        each element's `getFormInputs` gives. */
    method Submit(extra: Option<seq<FormInput>>, onsubmit: Option<bool>, hasContext: bool, inputsOf: InputSource)
      returns (r: SubmitOutcome)
      requires element.Valid()
      ensures onsubmit == Some(false) ==> r == Cancelled
      ensures onsubmit != Some(false) && !hasContext ==> r == NoContext
      ensures onsubmit != Some(false) && hasContext ==>
        var c := Collected(element.Preorder(), inputsOf);
        r == if c.None? then UnnamedInput else Submitted(GetMethod(), extra.GetOr([]) + c.value)
    {
      if onsubmit.Some? && !onsubmit.value {
        return Cancelled;
      }
      if !hasContext {
        return NoContext;
      }
      var formInputs: seq<FormInput> := [];
      if extra.Some? {
        for i := 0 to |extra.value|
          invariant formInputs == extra.value[..i]
        {
          formInputs := formInputs + [extra.value[i]];
        }
        assert extra.value[..|extra.value|] == extra.value;
      }
      var gathered := CollectIn(element.Preorder(), inputsOf);
      if gathered.None? {
        return UnnamedInput;
      }
      return Submitted(GetMethod(), formInputs + gathered.value);
    }
  }
}
