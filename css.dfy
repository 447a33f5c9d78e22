/**
 * The CSS collaborators of the element style cache, as values.
 *
 * A parsed declaration block is a list of property/value pairs; a properties
 * object (`AbstractCSSProperties`) is the list of declaration blocks added to
 * it, in order, together with the local-style properties it was given. The
 * CSS parser and the stylesheet aggregator are functions the model is handed.
 */
module Css {
  import opened Wrappers

  /** One parsed declaration block (`CSSStyleDeclarationImpl`). */
  datatype Declaration = Declaration(entries: seq<(string, string)>)

  /** `AbstractCSSProperties`: declaration blocks in the order they were added,
      and the slot `setLocalStyleProperties` fills. */
  datatype Properties = Properties(declarations: seq<Declaration>, local: Option<Properties>)

  /** A freshly constructed properties object. */
  const Empty := Properties([], None)

  /** `addStyleDeclaration`: the block goes after every block added before. */
  function AddDeclaration(p: Properties, d: Declaration): (r: Properties)
    ensures r.declarations == p.declarations + [d] && r.local == p.local
  {
    p.(declarations := p.declarations + [d])
  }

  /** `setLocalStyleProperties`. */
  function WithLocal(p: Properties, local: Properties): (r: Properties)
    ensures r.declarations == p.declarations && r.local == Some(local)
  {
    p.(local := Some(local))
  }

  /** The answer of the stylesheet aggregator for one element: the matching
      rules' declaration blocks in cascade order, and whether any hover rule
      took part (`isMouseOver`). */
  datatype Matches = Matches(rules: seq<Declaration>, mouseOver: bool)

  /** `getActiveStyleDeclarations(element, tagName, classes, mouseOver)`:
      the class array is `None` where the source passes `null`. */
  type Aggregator = (string, Option<seq<string>>, bool) -> Matches

  /** `parseStyleDeclaration`: `None` where the parser throws. */
  type Parser = string -> Option<Declaration>

  /** What the rule-gathering loop of `addStyleSheetDeclarations` leaves:
      nothing is created when no rule matches, and otherwise the rules'
      blocks follow the given object's own blocks (a fresh object when none
      was given). */
  function WithRules(style: Option<Properties>, rules: seq<Declaration>): (r: Option<Properties>)
    ensures rules == [] ==> r == style
    ensures rules != [] ==> r.Some? && r.value.local == (if style.Some? then style.value.local else None)
    ensures rules != [] ==> r.value.declarations == (if style.Some? then style.value.declarations else []) + rules
  {
    if rules == [] then style
    else
      var base := style.GetOr(Empty);
      Some(base.(declarations := base.declarations + rules))
  }

  /** Adding the rules one at a time is adding them all at once. */
  lemma WithRulesStep(style: Option<Properties>, rules: seq<Declaration>, d: Declaration)
    ensures WithRules(style, rules + [d]) == Some(AddDeclaration(WithRules(style, rules).GetOr(Empty), d))
  {
    var base := style.GetOr(Empty);
    if rules == [] {
      assert rules + [d] == [d];
    } else {
      assert base.declarations + (rules + [d]) == (base.declarations + rules) + [d];
    }
  }
}
