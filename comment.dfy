/** Rhino's `ast.Comment`: a source comment kept in the syntax tree, with its
    style, its text and the position and length every AST node has. */
module Comments {
  import opened Wrappers
  import opened JavaInt

  /** `Token.CommentType`. */
  datatype CommentType = Line | BlockComment | JsDoc | Html

  /** The `NullPointerException` of `setValue(null)`, and the
      `NegativeArraySizeException` of a `StringBuilder` made with a negative
      capacity. */
  datatype CommentError = NullPointer | NegativeArraySize

  /** `AstNode.makeIndent`: two spaces per level; none for a depth <= 0. */
  function Indent(depth: int): (r: string)
    ensures |r| == 2 * (if depth > 0 then depth else 0)
    ensures forall k :: 0 <= k < |r| ==> r[k] == ' '
    decreases depth
  {
    if depth <= 0 then "" else Indent(depth - 1) + "  "
  }

  /** How `StringBuilder.append` prints a possibly null string. */
  function Show(v: Option<string>): string {
    if v.Some? then v.value else "null"
  }

  class Comment {
    var position: Int32
    var length: Int32
    var commentType: CommentType
    var value: Option<string>

    constructor(pos: Int32, len: Int32, commentType: CommentType, value: Option<string>)
      ensures position == pos && length == len
      ensures this.commentType == commentType && this.value == value
    {
      position := pos;
      length := len;
      this.commentType := commentType;
      this.value := value;
    }

    /** `setCommentType`: the style changes, nothing else. */
    method SetCommentType(t: CommentType)
      modifies this`commentType
      ensures commentType == t
    {
      commentType := t;
    }

    /** `setValue`: stores the text and makes the node's length its length.
        A null text is stored and then throws before the length is set. A
        Java string is never longer than `Integer.MAX_VALUE`. */
    method SetValue(commentString: Option<string>) returns (r: Outcome<CommentError>)
      requires commentString.Some? ==> |commentString.value| <= INT_MAX
      modifies this`value, this`length
      ensures value == commentString
      ensures commentString.Some? ==> r == Pass && length == |commentString.value|
      ensures commentString.None? ==> r == Fail(NullPointer) && length == old(length)
    {
      value := commentString;
      if commentString.None? {
        return Fail(NullPointer);
      }
      length := |commentString.value|;
      r := Pass;
    }

    /** `toSource`: the text is built in a `StringBuilder` of capacity
        `getLength() + 10`, an `int` sum, which throws when it is negative:
        for a length below -10, or within 9 of `Integer.MAX_VALUE`, where
        the sum wraps. Otherwise it is the indent for `depth`, the text, and
        a line break after a block comment only. */
    function ToSource(depth: int): (r: Result<string, CommentError>)
      reads this`value, this`commentType, this`length
      ensures r.Failure? <==> length < -10 || length > INT_MAX - 10
      ensures r.Failure? ==> r.error == NegativeArraySize
      ensures r.Success? ==> var n := |Indent(depth)|;
        n + |Show(value)| <= |r.value| && r.value[..n] == Indent(depth) && r.value[n..n + |Show(value)|] == Show(value)
      ensures r.Success? ==>
        |r.value| == |Indent(depth)| + |Show(value)| + (if commentType == BlockComment then 1 else 0)
      ensures r.Success? && commentType == BlockComment ==> r.value[|r.value| - 1] == '\n'
    {
      if Wrap32(length + 10) < 0 then Failure(NegativeArraySize)
      else
        var sb := Indent(depth) + Show(value);
        Success(if commentType == BlockComment then sb + "\n" else sb)
    }
  }

  /** The source of a comment is its source one level up with two more
      leading spaces; whether it throws does not depend on the depth. */
  lemma ToSourceDeeper(c: Comment, depth: nat)
    ensures c.ToSource(depth + 1).Failure? <==> c.ToSource(depth).Failure?
    ensures c.ToSource(depth).Success? ==> c.ToSource(depth + 1) == Success("  " + c.ToSource(depth).value)
    decreases depth
  {
    IndentSucc(depth);
    var i, v := Indent(depth), Show(c.value);
    assert ("  " + i) + v == "  " + (i + v);
    assert ("  " + i + v) + "\n" == "  " + (i + v + "\n");
  }

  lemma {:induction false} IndentSucc(depth: nat)
    ensures Indent(depth + 1) == "  " + Indent(depth)
    decreases depth
  {
    if depth > 0 {
      IndentSucc(depth - 1);
    }
  }
}
