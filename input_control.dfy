/** `InputControl.direction`: the text direction of an input control from
    its `dir` attribute. */
module InputControls {
  import opened Wrappers
  import opened JavaText

  /** `java.awt.ComponentOrientation`, as far as `direction` uses it. */
  datatype ComponentOrientation = LeftToRight | RightToLeft | Unknown

  /** `direction`: "ltr" and "rtl" in any letter case; everything else,
      null included, is unknown. */
  function Direction(dir: Option<string>): (r: ComponentOrientation)
    ensures r == LeftToRight <==> dir.Some? && Lower(dir.value) == "ltr"
    ensures r == RightToLeft <==> dir.Some? && Lower(dir.value) == "rtl"
    ensures r == Unknown <==> dir.None? || (Lower(dir.value) != "ltr" && Lower(dir.value) != "rtl")
  {
    KeywordsIgnoringCase(dir.GetOr(""));
    if EqualsIgnoreCase("ltr", dir) then LeftToRight
    else if EqualsIgnoreCase("rtl", dir) then RightToLeft
    else Unknown
  }

  /** The two keywords are lower case, so ignoring case is lower-casing. */
  lemma KeywordsIgnoringCase(s: string)
    ensures EqualsIgnoreCase("ltr", Some(s)) <==> Lower(s) == "ltr"
    ensures EqualsIgnoreCase("rtl", Some(s)) <==> Lower(s) == "rtl"
  {
    EqualsIgnoreCaseIsLowerEquality("ltr", s);
    EqualsIgnoreCaseIsLowerEquality("rtl", s);
    assert Lower("ltr") == "ltr" && Lower("rtl") == "rtl";
  }

  /** Upper-casing the attribute does not change the direction. */
  lemma DirectionIgnoresCase(dir: string)
    ensures Direction(Some(Upper(dir))) == Direction(Some(dir))
  {
    var u := Upper(dir);
    assert Lower(u) == Lower(dir) by {
      forall k | 0 <= k < |dir| ensures Lower(u)[k] == Lower(dir)[k] {
        assert LowerChar(UpperChar(dir[k])) == LowerChar(dir[k]);
      }
    }
  }
}
