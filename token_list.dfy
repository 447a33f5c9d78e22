/**
 * `DOMTokenListImpl`: an ordered list of class tokens bound to one element.
 * Most operations write the list back into the element's `class` attribute
 * through `setClassName`.
 *
 * Each operation is specified by a function on the token list (and, where
 * it writes the attribute, by the class name it writes); the methods of the
 * class change the list and the element as those functions say.
 */
module TokenList {
  import opened Wrappers
  import opened JavaText
  import opened Dom

  /** The `LinkedList<String>` of tokens; `replace` can store a `null`. */
  type Tokens = seq<Option<string>>

  /** How `StringBuilder.append` prints a token. */
  function Show(t: Option<string>): string {
    if t.Some? then t.value else "null"
  }

  function Shown(ts: Tokens): (r: seq<string>)
    ensures |r| == |ts| && forall i :: 0 <= i < |ts| ==> r[i] == Show(ts[i])
  {
    seq(|ts|, i requires 0 <= i < |ts| => Show(ts[i]))
  }

  /** Each token followed by one space, as the `forEach` loops build it. */
  function SpaceTerminated(ts: Tokens): string {
    if ts == [] then "" else SpaceTerminated(ts[..|ts| - 1]) + Show(ts[|ts| - 1]) + " "
  }

  /** `indexOf`: the first position holding `t`, or -1. */
  function IndexOf(ts: Tokens, t: Option<string>): (r: int)
    ensures -1 <= r < |ts|
    ensures r == -1 <==> t !in ts
    ensures r >= 0 ==> ts[r] == t && t !in ts[..r]
  {
    if ts == [] then -1
    else if ts[0] == t then 0
    else
      var k := IndexOf(ts[1..], t);
      assert k >= 0 ==> ts[..k + 1] == [ts[0]] + ts[1..][..k];
      if k == -1 then -1 else k + 1
  }

  /** `remove(Object)`: the first occurrence goes, if there is one. */
  function RemoveFirst(ts: Tokens, t: Option<string>): Tokens {
    var i := IndexOf(ts, t);
    if i == -1 then ts else ts[..i] + ts[i + 1..]
  }

  /** Removal takes away exactly one copy of a present token, keeping the
      order of the rest, and leaves a list without it unchanged. */
  lemma RemoveFirstCount(ts: Tokens, t: Option<string>)
    ensures t !in ts ==> RemoveFirst(ts, t) == ts
    ensures t in ts ==> |RemoveFirst(ts, t)| == |ts| - 1
    ensures multiset(RemoveFirst(ts, t)) == multiset(ts) - multiset{t}
  {
    var i := IndexOf(ts, t);
    if i != -1 {
      assert ts == ts[..i] + [t] + ts[i + 1..];
      assert multiset(ts) == multiset(ts[..i]) + multiset{t} + multiset(ts[i + 1..]);
    } else {
      assert multiset(ts)[t] == 0;
    }
  }

  /** The checks `add`/`remove` (with `tabs`) and `toggle` (without) make on
      the trimmed token: not blank, no space, and no tab. */
  function CheckToken(tok: string, tabs: bool): (r: Outcome<DomError>)
    ensures r.Fail? ==> r.error == InvalidCharacterErr
    ensures r.Pass? ==> tok != []
  {
    if IsBlank(Some(tok)) then Fail(InvalidCharacterErr)
    else if Contains(tok, " ") || (tabs && Contains(tok, "\t")) then Fail(InvalidCharacterErr)
    else Pass
  }

  /** The list after `add`, or the error it raises. */
  function AddTokens(ts: Tokens, token: Option<string>): Result<Tokens, DomError> {
    if token.None? || token in ts then Success(ts)
    else
      var tok := Trim(token.value);
      match CheckToken(tok, true)
      case Fail(e) => Failure(e)
      case Pass => Success(ts + [Some(tok)])
  }

  /** The class name `add` writes, if any: none when the class already
      contains the token; otherwise the token after the trimmed class name,
      or the token alone when the class name is blank or holds both a tab
      and a newline. */
  function AddClassWrite(ts: Tokens, token: Option<string>, className: string): Option<string> {
    if token.None? || token in ts || CheckToken(Trim(token.value), true).Fail? then None
    else
      var tok := Trim(token.value);
      if Contains(className, tok) then None
      else if NotBlank(Some(className)) && (!Contains(className, "\t") || !Contains(className, "\n"))
      then Some(Trim(className) + " " + tok)
      else Some(tok)
  }

  /** The list after `remove`, or the error it raises. */
  function RemoveTokens(ts: Tokens, token: Option<string>): Result<Tokens, DomError> {
    if token.None? then Success(ts)
    else
      var tok := Trim(token.value);
      match CheckToken(tok, true)
      case Fail(e) => Failure(e)
      case Pass => Success(RemoveFirst(ts, Some(tok)))
  }

  /** `toggle`: the new list and the answer, or the error it raises. */
  function ToggleTokens(ts: Tokens, token: Option<string>): Result<(Tokens, bool), DomError> {
    if token.None? then Success((ts, false))
    else
      var tok := Trim(token.value);
      match CheckToken(tok, false)
      case Fail(e) => Failure(e)
      case Pass =>
        if Some(tok) in ts then Success((RemoveFirst(ts, Some(tok)), false))
        else Success((ts + [Some(tok)], true))
  }

  /** `replace`: only a non-blank old token that is present, and only a
      blank (or null) new token; the first occurrence is overwritten. */
  function ReplaceTokens(ts: Tokens, oldToken: Option<string>, newToken: Option<string>): (Tokens, bool) {
    if NotBlank(oldToken) && IsBlank(newToken) && IndexOf(ts, oldToken) != -1
    then (ts[IndexOf(ts, oldToken) := newToken], true)
    else (ts, false)
  }

  /** The list after `populate`: a tab-free token joins the list. */
  function PopulateTokens(ts: Tokens, token: Option<string>): Tokens {
    if token.None? || token in ts then ts
    else
      var tok := Trim(token.value);
      if NotBlank(Some(tok)) && '\t' !in tok then ts + [Some(tok)] else ts
  }

  /** The class name `populate` writes, if any. */
  function PopulateClassWrite(ts: Tokens, token: Option<string>, className: string): Option<string> {
    if token.None? || token in ts then None
    else
      var tok := Trim(token.value);
      if IsBlank(Some(tok)) || Contains(className, tok) then None
      else if NotBlank(Some(className)) then Some(Trim(className) + " " + tok)
      else Some(tok)
  }

  /** `populate` applied to each piece in turn. */
  function PopulateAll(ts: Tokens, pieces: seq<string>): Tokens {
    if pieces == [] then ts
    else PopulateTokens(PopulateAll(ts, pieces[..|pieces| - 1]), Some(pieces[|pieces| - 1]))
  }

  /** `getValue`: "" for no tokens, the token itself for one (possibly
      null), and otherwise the tokens joined by single spaces. */
  function ValueOf(ts: Tokens): Option<string> {
    if |ts| == 0 then Some("")
    else if |ts| == 1 then ts[0]
    else Some(Join(Shown(ts)))
  }

  /** The list `setValue` leaves: the whitespace-separated pieces. */
  function TokensOf(value: string): (r: Tokens)
    ensures |r| == |Tokenize(value)|
    ensures forall i :: 0 <= i < |r| ==> r[i] == Some(Tokenize(value)[i])
  {
    var pieces := Tokenize(value);
    seq(|pieces|, i requires 0 <= i < |pieces| => Some(pieces[i]))
  }

  /** What `add` and `toggle` keep in the list: non-null, non-empty tokens
      with nothing to trim at either end. */
  predicate WellFormed(ts: Tokens) {
    forall i :: 0 <= i < |ts| ==>
      ts[i].Some? && ts[i].value != [] && !IsTrimmable(ts[i].value[0]) &&
      !IsTrimmable(ts[i].value[|ts[i].value| - 1])
  }

  // ---------------------------------------------------------------
  // Properties of the specification
  // ---------------------------------------------------------------

  /** `add` of a valid absent token appends its trimmed form, so the list
      grows by one and then contains it; any other token leaves the list as
      it was or raises INVALID_CHARACTER_ERR. */
  lemma AddAppends(ts: Tokens, token: Option<string>)
    ensures token.None? || token in ts ==> AddTokens(ts, token) == Success(ts)
    ensures token.Some? && token !in ts && CheckToken(Trim(token.value), true).Pass? ==>
      AddTokens(ts, token).Success? && |AddTokens(ts, token).value| == |ts| + 1 &&
      AddTokens(ts, token).value[..|ts|] == ts &&
      AddTokens(ts, token).value[|ts|] == Some(Trim(token.value))
    ensures AddTokens(ts, token).Failure? <==>
      token.Some? && token !in ts && CheckToken(Trim(token.value), true).Fail?
    ensures AddTokens(ts, token).Failure? ==> AddTokens(ts, token).error == InvalidCharacterErr
  {
    if token.Some? && token !in ts && CheckToken(Trim(token.value), true).Pass? {
      assert (ts + [Some(Trim(token.value))])[..|ts|] == ts;
    }
  }

  /** Adding an already trimmed token twice is adding it once. */
  lemma AddIdempotent(ts: Tokens, tok: string)
    requires Trim(tok) == tok
    requires AddTokens(ts, Some(tok)).Success?
    ensures AddTokens(AddTokens(ts, Some(tok)).value, Some(tok)) == AddTokens(ts, Some(tok))
  {
  }

  /** A successful `add` leaves the token in the class name: it was there
      already, or the written name contains it. */
  lemma AddClassContainsToken(ts: Tokens, token: Option<string>, className: string)
    requires token.Some? && token !in ts && CheckToken(Trim(token.value), true).Pass?
    ensures AddClassWrite(ts, token, className).None? ==> Contains(className, Trim(token.value))
    ensures AddClassWrite(ts, token, className).Some? ==>
      Contains(AddClassWrite(ts, token, className).value, Trim(token.value))
  {
    var tok := Trim(token.value);
    if !Contains(className, tok) && NotBlank(Some(className)) &&
       (!Contains(className, "\t") || !Contains(className, "\n")) {
      var w := Trim(className) + " " + tok;
      SliceContained(w, |Trim(className)| + 1, |w|);
      assert w[|Trim(className)| + 1..|w|] == tok;
    } else if !Contains(className, tok) {
      SliceContained(tok, 0, |tok|);
      assert tok[0..|tok|] == tok;
    }
  }

  /** `remove` deletes one copy of the trimmed token and keeps the order of
      the other tokens; an invalid token raises INVALID_CHARACTER_ERR. */
  lemma RemoveDeletesFirst(ts: Tokens, token: Option<string>)
    ensures token.None? ==> RemoveTokens(ts, token) == Success(ts)
    ensures RemoveTokens(ts, token).Failure? <==> token.Some? && CheckToken(Trim(token.value), true).Fail?
    ensures RemoveTokens(ts, token).Success? && token.Some? ==>
      multiset(RemoveTokens(ts, token).value) == multiset(ts) - multiset{Some(Trim(token.value))}
    ensures RemoveTokens(ts, token).Success? && token.Some? && IndexOf(ts, Some(Trim(token.value))) >= 0 ==>
      var i := IndexOf(ts, Some(Trim(token.value)));
      RemoveTokens(ts, token).value == ts[..i] + ts[i + 1..]
  {
    if token.Some? {
      RemoveFirstCount(ts, Some(Trim(token.value)));
    }
  }

  /** `toggle` answers true exactly when the token was absent and is present
      afterwards; when it answers false for a valid token, the token was
      present and one copy of it is gone. */
  lemma ToggleAnswer(ts: Tokens, token: Option<string>)
    ensures ToggleTokens(ts, token).Success? && ToggleTokens(ts, token).value.1 <==>
      token.Some? && CheckToken(Trim(token.value), false).Pass? && Some(Trim(token.value)) !in ts
    ensures ToggleTokens(ts, token).Success? && ToggleTokens(ts, token).value.1 ==>
      Some(Trim(token.value)) in ToggleTokens(ts, token).value.0
    ensures ToggleTokens(ts, token).Success? && !ToggleTokens(ts, token).value.1 && token.Some? ==>
      Some(Trim(token.value)) in ts &&
      multiset(ToggleTokens(ts, token).value.0) == multiset(ts) - multiset{Some(Trim(token.value))}
    ensures token.None? ==> ToggleTokens(ts, token) == Success((ts, false))
  {
    if token.Some? {
      RemoveFirstCount(ts, Some(Trim(token.value)));
    }
  }

  /** Toggling a valid absent token twice gives back the original list. */
  lemma ToggleTwice(ts: Tokens, tok: string)
    requires Trim(tok) == tok && CheckToken(tok, false).Pass? && Some(tok) !in ts
    ensures ToggleTokens(ts, Some(tok)).Success?
    ensures var once := ToggleTokens(ts, Some(tok)).value.0;
      ToggleTokens(once, Some(tok)) == Success((ts, false))
  {
    var once := ts + [Some(tok)];
    assert IndexOf(once, Some(tok)) == |ts| by {
      assert once[|ts|] == Some(tok);
      assert once[..|ts|] == ts;
    }
    assert once[..|ts|] + once[|ts| + 1..] == ts;
  }

  /** `replace` succeeds exactly for a non-blank present old token and a
      blank new one, overwriting only the first occurrence. */
  lemma ReplaceFirst(ts: Tokens, oldToken: Option<string>, newToken: Option<string>)
    ensures ReplaceTokens(ts, oldToken, newToken).1 <==>
      NotBlank(oldToken) && IsBlank(newToken) && oldToken in ts
    ensures ReplaceTokens(ts, oldToken, newToken).1 ==>
      var i := IndexOf(ts, oldToken);
      var r := ReplaceTokens(ts, oldToken, newToken).0;
      |r| == |ts| && r[i] == newToken && oldToken !in r[..i] &&
      forall j :: 0 <= j < |ts| && j != i ==> r[j] == ts[j]
    ensures !ReplaceTokens(ts, oldToken, newToken).1 ==> ReplaceTokens(ts, oldToken, newToken).0 == ts
  {
    if ReplaceTokens(ts, oldToken, newToken).1 {
      var i := IndexOf(ts, oldToken);
      assert ts[i := newToken][..i] == ts[..i];
    }
  }

  lemma {:induction false} SpaceTerminatedJoin(ts: Tokens)
    requires ts != []
    ensures SpaceTerminated(ts) == Join(Shown(ts)) + " "
    decreases |ts|
  {
    var front := ts[..|ts| - 1];
    if front == [] {
      assert Shown(ts) == [Show(ts[0])];
    } else {
      SpaceTerminatedJoin(front);
      assert Shown(ts) == Shown(front) + [Show(ts[|ts| - 1])];
      JoinSnoc(Shown(front), Show(ts[|ts| - 1]));
    }
  }

  /** For well-formed tokens, trimming the space-terminated text gives the
      tokens joined by single spaces: what `remove`, `toggle` and
      `toString` produce is the list's value. */
  lemma TrimmedIsValue(ts: Tokens)
    requires WellFormed(ts)
    ensures Trim(SpaceTerminated(ts)) == ValueOf(ts).value
  {
    if ts != [] {
      SpaceTerminatedJoin(ts);
      var shown := Shown(ts);
      JoinEnds(shown);
      TrimPadded(Join(shown));
      if |ts| == 1 {
        assert shown == [ts[0].value];
      }
    } else {
      assert SpaceTerminated(ts) == "";
    }
  }

  /** `add` keeps a well-formed list well formed. */
  lemma AddKeepsWellFormed(ts: Tokens, token: Option<string>)
    requires WellFormed(ts) && AddTokens(ts, token).Success?
    ensures WellFormed(AddTokens(ts, token).value)
  {
  }

  /** `remove` keeps a well-formed list well formed. */
  lemma RemoveKeepsWellFormed(ts: Tokens, token: Option<string>)
    requires WellFormed(ts) && RemoveTokens(ts, token).Success?
    ensures WellFormed(RemoveTokens(ts, token).value)
  {
    if token.Some? {
      var t := Some(Trim(token.value));
      var i := IndexOf(ts, t);
      if i != -1 {
        var r := ts[..i] + ts[i + 1..];
        forall j | 0 <= j < |r| ensures r[j] == ts[if j < i then j else j + 1] {
        }
      }
    }
  }

  /** `toggle` keeps a well-formed list well formed. */
  lemma ToggleKeepsWellFormed(ts: Tokens, token: Option<string>)
    requires WellFormed(ts) && ToggleTokens(ts, token).Success?
    ensures WellFormed(ToggleTokens(ts, token).value.0)
  {
    if token.Some? && CheckToken(Trim(token.value), false).Pass? && Some(Trim(token.value)) in ts {
      var t := Some(Trim(token.value));
      var i := IndexOf(ts, t);
      var r := ts[..i] + ts[i + 1..];
      forall j | 0 <= j < |r| ensures r[j] == ts[if j < i then j else j + 1] {
      }
    }
  }

  /** After `setValue(v)`, `getValue` is the pieces of `v` joined by single
      spaces, and splitting that again gives the same pieces. */
  lemma SetThenGetValue(value: string)
    ensures ValueOf(TokensOf(value)) == Some(Join(Tokenize(value)))
    ensures Tokenize(ValueOf(TokensOf(value)).value) == Tokenize(value)
  {
    var pieces := Tokenize(value);
    var ts := TokensOf(value);
    assert Shown(ts) == pieces;
    TokenizeJoin(pieces);
  }

  /** Every piece between two spaces, empty ones included: the list that
      `String.split(" ")` builds before it removes the empty pieces at the end. */
  function SplitAll(s: string): (r: seq<string>)
    ensures |r| >= 1
    decreases |s|
  {
    if ' ' !in s then [s]
    else
      var n := PieceLength(s);
      [s[..n]] + SplitAll(s[n + 1..])
  }

  /** The length of the text before the first space. */
  function PieceLength(s: string): (n: nat)
    requires ' ' in s
    ensures n < |s| && s[n] == ' ' && ' ' !in s[..n]
  {
    if s[0] == ' ' then 0
    else
      var n := 1 + PieceLength(s[1..]);
      assert s[..n] == [s[0]] + s[1..][..n - 1];
      n
  }

  /** The pieces with the empty ones at the end removed. */
  function DropTrailingEmpty(ps: seq<string>): (r: seq<string>)
    ensures |r| <= |ps| && r == ps[..|r|]
    ensures forall i :: |r| <= i < |ps| ==> ps[i] == ""
    ensures r == [] || r[|r| - 1] != ""
    decreases |ps|
  {
    if ps == [] || ps[|ps| - 1] != "" then ps
    else DropTrailingEmpty(ps[..|ps| - 1])
  }

  /** `String.split(" ")`: a text without a space is its own single piece;
      otherwise the pieces between the spaces, less the empty pieces at the
      end, so a text of spaces alone gives no piece at all. */
  function SplitSpaces(s: string): seq<string> {
    if ' ' !in s then [s] else DropTrailingEmpty(SplitAll(s))
  }

  /** The pieces run together with one space between each two. */
  function JoinSpaced(ps: seq<string>): string
    requires |ps| >= 1
  {
    if |ps| == 1 then ps[0] else ps[0] + " " + JoinSpaced(ps[1..])
  }

  /** Joining the pieces with single spaces gives the text back. */
  lemma {:induction false} SplitAllJoin(s: string)
    ensures JoinSpaced(SplitAll(s)) == s
    decreases |s|
  {
    if ' ' in s {
      var n := PieceLength(s);
      var ps := SplitAll(s);
      SplitAllJoin(s[n + 1..]);
      assert ps[0] == s[..n] && ps[1..] == SplitAll(s[n + 1..]);
      assert s == s[..n] + " " + s[n + 1..];
    }
  }

  /** No piece holds a space. */
  lemma {:induction false} SplitAllNoSpace(s: string)
    ensures forall i :: 0 <= i < |SplitAll(s)| ==> ' ' !in SplitAll(s)[i]
    decreases |s|
  {
    if ' ' in s {
      var n := PieceLength(s);
      var ps := SplitAll(s);
      SplitAllNoSpace(s[n + 1..]);
      forall i | 0 <= i < |ps|
        ensures ' ' !in ps[i]
      {
        if i > 0 {
          assert ps[i] == SplitAll(s[n + 1..])[i - 1];
        }
      }
    }
  }

  /** Every piece is empty exactly when the text is spaces alone. */
  lemma {:induction false} SplitAllEmptyIff(s: string)
    ensures (forall i :: 0 <= i < |SplitAll(s)| ==> SplitAll(s)[i] == "") <==> forall c :: c in s ==> c == ' '
    decreases |s|
  {
    if ' ' in s {
      var n := PieceLength(s);
      var rest := s[n + 1..];
      SplitAllEmptyIff(rest);
      var ps := SplitAll(s);
      assert ps[0] == s[..n] && ps[1..] == SplitAll(rest);
      assert s == s[..n] + " " + rest;
      if forall c :: c in s ==> c == ' ' {
        assert s[0] in s;
        assert n == 0;
        assert forall c :: c in rest ==> c == ' ' by {
          forall c | c in rest
            ensures c == ' '
          {
            var j :| 0 <= j < |rest| && rest[j] == c;
            assert s[n + 1 + j] == c && s[n + 1 + j] in s;
          }
        }
        assert forall i :: 0 <= i < |ps| ==> ps[i] == "" by {
          forall i | 0 <= i < |ps|
            ensures ps[i] == ""
          {
            if i > 0 {
              assert ps[i] == SplitAll(rest)[i - 1];
            }
          }
        }
      }
      if forall i :: 0 <= i < |ps| ==> ps[i] == "" {
        assert n == 0 by {
          assert ps[0] == "";
        }
        assert forall i :: 0 <= i < |SplitAll(rest)| ==> SplitAll(rest)[i] == "" by {
          forall i | 0 <= i < |SplitAll(rest)|
            ensures SplitAll(rest)[i] == ""
          {
            assert SplitAll(rest)[i] == ps[i + 1];
          }
        }
        assert s == " " + rest;
      }
    } else if s != [] {
      assert SplitAll(s)[0] == s && s[0] in s;
    }
  }

  /** What `String.split(" ")` promises: a text without a space is one
      piece; otherwise the pieces are the space-separated pieces up to the
      last non-empty one, none of them holds a space, every dropped piece
      is empty, and there are no pieces exactly when the text is a
      non-empty run of spaces. */
  lemma SplitSpacesPieces(s: string)
    ensures ' ' !in s ==> SplitSpaces(s) == [s]
    ensures ' ' in s ==> SplitSpaces(s) == [] || SplitSpaces(s)[|SplitSpaces(s)| - 1] != ""
    ensures |SplitSpaces(s)| <= |SplitAll(s)| && SplitSpaces(s) == SplitAll(s)[..|SplitSpaces(s)|]
    ensures forall i :: |SplitSpaces(s)| <= i < |SplitAll(s)| ==> SplitAll(s)[i] == ""
    ensures JoinSpaced(SplitAll(s)) == s
    ensures forall i :: 0 <= i < |SplitSpaces(s)| ==> ' ' !in SplitSpaces(s)[i]
    ensures SplitSpaces(s) == [] <==> s != [] && forall c :: c in s ==> c == ' '
  {
    SplitAllJoin(s);
    SplitAllNoSpace(s);
    SplitAllEmptyIff(s);
    if ' ' in s {
      var r := SplitSpaces(s);
      forall i | 0 <= i < |r|
        ensures ' ' !in r[i]
      {
        assert r[i] == SplitAll(s)[i];
      }
    } else if s != [] {
      assert s[0] in s;
    }
  }

  /** One step of the split at the first space, at `n`. */
  lemma SplitAllAt(s: string, n: nat)
    requires n < |s| && s[n] == ' ' && ' ' !in s[..n]
    ensures SplitAll(s) == [s[..n]] + SplitAll(s[n + 1..])
  {
    assert PieceLength(s) == n;
  }

  /** `String.split(" ")` drops an empty piece at the end: "a " gives ["a"]. */
  lemma SplitSpacesTrailingExample()
    ensures SplitSpaces("a ") == ["a"]
  {
    SplitAllAt("a ", 1);
    assert "a "[..1] == "a" && "a "[2..] == "";
  }

  /** A text of one space gives no piece; the empty text gives one empty piece. */
  lemma SplitSpacesBlankExample()
    ensures SplitSpaces(" ") == [] && SplitSpaces("") == [""]
  {
    SplitAllAt(" ", 0);
    assert " "[..0] == "" && " "[1..] == "";
  }

  /** An empty piece at the start is kept: " a" gives ["", "a"]. */
  lemma SplitSpacesLeadingExample()
    ensures SplitSpaces(" a") == ["", "a"]
  {
    SplitAllAt(" a", 0);
    assert " a"[..0] == "" && " a"[1..] == "a";
  }

  /** Every split piece occurs in the split text. */
  lemma {:induction false} SplitAllPiecesOccur(s: string, i: nat)
    requires i < |SplitAll(s)|
    ensures Contains(s, SplitAll(s)[i])
    decreases |s|
  {
    if ' ' !in s {
      SliceContained(s, 0, |s|);
      assert s[0..|s|] == s;
    } else {
      var n := PieceLength(s);
      if i == 0 {
        SliceContained(s, 0, n);
        assert s[0..n] == s[..n];
      } else {
        SplitAllPiecesOccur(s[n + 1..], i - 1);
        SliceContained(s, n + 1, |s|);
        assert s[n + 1..|s|] == s[n + 1..];
        ContainsTransitive(s, s[n + 1..], SplitAll(s)[i]);
      }
    }
  }

  /** Every piece `String.split(" ")` gives occurs in the split text. */
  lemma SplitPiecesOccur(s: string, i: nat)
    requires i < |SplitSpaces(s)|
    ensures Contains(s, SplitSpaces(s)[i])
  {
    if ' ' in s {
      assert SplitSpaces(s)[i] == SplitAll(s)[i];
    }
    SplitAllPiecesOccur(s, i);
  }

  /** A piece of the class name never leads `populate` to write the class
      name: its trimmed form already occurs in it. */
  lemma PopulatePieceWritesNothing(ts: Tokens, className: string, i: nat)
    requires i < |SplitSpaces(className)|
    ensures PopulateClassWrite(ts, Some(SplitSpaces(className)[i]), className).None?
  {
    var piece := SplitSpaces(className)[i];
    SplitPiecesOccur(className, i);
    TrimContained(piece);
    ContainsTransitive(className, piece, Trim(piece));
  }

  // ---------------------------------------------------------------
  // The class
  // ---------------------------------------------------------------

  /** The `forEach` loop that appends each token and a space. */
  method SpaceTerminatedText(ts: Tokens) returns (s: string)
    ensures s == SpaceTerminated(ts)
  {
    s := "";
    for i := 0 to |ts|
      invariant s == SpaceTerminated(ts[..i])
    {
      assert ts[..i + 1][..i] == ts[..i];
      s := s + Show(ts[i]) + " ";
    }
    assert ts[..|ts|] == ts;
  }

  class DomTokenList {
    const element: Element
    var tokens: Tokens

    constructor (element: Element)
      ensures this.element == element && tokens == []
    {
      this.element := element;
      tokens := [];
    }

    /** The element's class name is `c` when it was written, and the element
        is as it was otherwise. */
    twostate predicate ClassWritten(c: Option<string>)
      reads element, element.Repr()
    {
      if c.Some? then
        element.attributes == old(element.attributes)["class" := c] &&
        element.id == old(element.id) && element.StylesInvalidated("class")
      else
        element.attributes == old(element.attributes) && element.id == old(element.id) &&
        element.localStyle == old(element.localStyle) &&
        forall e :: e in element.Repr() ==>
          e.currentStyle == old(e.currentStyle) && e.computedStyles == old(e.computedStyles)
    }

    /** `getLength`. */
    function Length(): (n: nat)
      reads this`tokens
      ensures n == |tokens|
    {
      |tokens|
    }

    /** `item`: `null` outside the list. */
    function Item(index: int): (r: Option<string>)
      reads this`tokens
      ensures index < 0 || index >= |tokens| ==> r.None?
      ensures 0 <= index < |tokens| ==> r == tokens[index]
    {
      if index < 0 || index >= |tokens| then None else tokens[index]
    }

    /** `contains`: the exact (untrimmed) token is in the list. */
    function ContainsToken(token: Option<string>): (r: bool)
      reads this`tokens
      ensures r <==> exists i :: 0 <= i < |tokens| && tokens[i] == token
      ensures r <==> IndexOf(tokens, token) >= 0
    {
      token in tokens
    }

    /** The `forEach` loop appending each token and a space. */
    /** The list takes its new tokens and, as at the end of `remove` and
        `toggle`, the space-terminated tokens, trimmed, become the class name. */
    method Store(newTokens: Tokens)
      requires element.Valid()
      modifies this`tokens, element`attributes, element`localStyle, element`id
      modifies element.Repr()`currentStyle, element.Repr()`computedStyles
      ensures tokens == newTokens
      ensures ClassWritten(Some(Trim(SpaceTerminated(tokens))))
      ensures WellFormed(tokens) ==> element.GetClassName() == ValueOf(tokens).value
    {
      var sb := SpaceTerminatedText(newTokens);
      if WellFormed(newTokens) {
        TrimmedIsValue(newTokens);
      }
      element.SetClassName(Trim(sb));
      tokens := newTokens;
    }

    /** `toString`: the tokens joined by single spaces, trimmed. */
    method ToString() returns (r: string)
      ensures r == Trim(SpaceTerminated(tokens))
      ensures WellFormed(tokens) ==> r == ValueOf(tokens).value
    {
      var sb := SpaceTerminatedText(tokens);
      r := Trim(sb);
      if WellFormed(tokens) {
        TrimmedIsValue(tokens);
      }
    }

    /** `add`. */
    method Add(token: Option<string>) returns (r: Outcome<DomError>)
      requires element.Valid()
      modifies this`tokens, element`attributes, element`localStyle, element`id
      modifies element.Repr()`currentStyle, element.Repr()`computedStyles
      ensures AddTokens(old(tokens), token).Success? ==> r.Pass? && tokens == AddTokens(old(tokens), token).value
      ensures AddTokens(old(tokens), token).Failure? ==>
        r == Fail(AddTokens(old(tokens), token).error) && tokens == old(tokens)
      ensures ClassWritten(AddClassWrite(old(tokens), token, old(element.GetClassName())))
    {
      if token.Some? && token !in tokens {
        var tok := Trim(token.value);
        if IsBlank(Some(tok)) {
          return Fail(InvalidCharacterErr);
        }
        if Contains(tok, " ") || Contains(tok, "\t") {
          return Fail(InvalidCharacterErr);
        }
        tokens := tokens + [Some(tok)];
        var className := element.GetClassName();
        if !Contains(className, tok) {
          if NotBlank(Some(className)) && (!Contains(className, "\t") || !Contains(className, "\n")) {
            element.SetClassName(Trim(className) + " " + tok);
          } else {
            element.SetClassName(tok);
          }
        }
      }
      return Pass;
    }

    /** `remove`. */
    method Remove(token: Option<string>) returns (r: Outcome<DomError>)
      requires element.Valid()
      modifies this`tokens, element`attributes, element`localStyle, element`id
      modifies element.Repr()`currentStyle, element.Repr()`computedStyles
      ensures RemoveTokens(old(tokens), token).Success? ==> r.Pass? && tokens == RemoveTokens(old(tokens), token).value
      ensures RemoveTokens(old(tokens), token).Failure? ==>
        r == Fail(RemoveTokens(old(tokens), token).error) && tokens == old(tokens)
      ensures token.Some? && r.Pass? ==> ClassWritten(Some(Trim(SpaceTerminated(tokens))))
      ensures !(token.Some? && r.Pass?) ==> ClassWritten(None)
      ensures token.Some? && r.Pass? && WellFormed(old(tokens)) ==> element.GetClassName() == ValueOf(tokens).value
    {
      if token.Some? {
        var tokTrim := Trim(token.value);
        if IsBlank(Some(tokTrim)) {
          return Fail(InvalidCharacterErr);
        }
        if Contains(tokTrim, " ") || Contains(tokTrim, "\t") {
          return Fail(InvalidCharacterErr);
        }
        if WellFormed(tokens) {
          RemoveKeepsWellFormed(tokens, token);
        }
        Store(RemoveFirst(tokens, Some(tokTrim)));
      }
      return Pass;
    }

    /** `toggle(token)`. */
    method Toggle(token: Option<string>) returns (r: Result<bool, DomError>)
      requires element.Valid()
      modifies this`tokens, element`attributes, element`localStyle, element`id
      modifies element.Repr()`currentStyle, element.Repr()`computedStyles
      ensures ToggleTokens(old(tokens), token).Success? ==>
        r == Success(ToggleTokens(old(tokens), token).value.1) && tokens == ToggleTokens(old(tokens), token).value.0
      ensures ToggleTokens(old(tokens), token).Failure? ==>
        r == Failure(ToggleTokens(old(tokens), token).error) && tokens == old(tokens)
      ensures token.Some? && r.Success? ==> ClassWritten(Some(Trim(SpaceTerminated(tokens))))
      ensures !(token.Some? && r.Success?) ==> ClassWritten(None)
      ensures token.Some? && r.Success? && WellFormed(old(tokens)) ==> element.GetClassName() == ValueOf(tokens).value
    {
      if token.Some? {
        var tok := Trim(token.value);
        if IsBlank(Some(tok)) {
          return Failure(InvalidCharacterErr);
        }
        if Contains(tok, " ") {
          return Failure(InvalidCharacterErr);
        }
        if WellFormed(tokens) {
          ToggleKeepsWellFormed(tokens, token);
        }
        if Some(tok) !in tokens {
          Store(tokens + [Some(tok)]);
          r := Success(true);
        } else {
          Store(RemoveFirst(tokens, Some(tok)));
          r := Success(false);
        }
        return;
      }
      return Success(false);
    }

    /** `toggle(token, force)`: `add` when forced on, `remove` when off, and
        the answer is `force`. */
    method ToggleForce(token: Option<string>, force: bool) returns (r: Result<bool, DomError>)
      requires element.Valid()
      modifies this`tokens, element`attributes, element`localStyle, element`id
      modifies element.Repr()`currentStyle, element.Repr()`computedStyles
      ensures r.Success? ==> r.value == force
      ensures force ==> (r.Success? <==> AddTokens(old(tokens), token).Success?)
      ensures !force ==> (r.Success? <==> RemoveTokens(old(tokens), token).Success?)
      ensures force && r.Success? ==> tokens == AddTokens(old(tokens), token).value
      ensures !force && r.Success? ==> tokens == RemoveTokens(old(tokens), token).value
      ensures r.Failure? ==> r.error == InvalidCharacterErr && tokens == old(tokens)
      ensures force ==> ClassWritten(AddClassWrite(old(tokens), token, old(element.GetClassName())))
      ensures !force && token.Some? && r.Success? ==> ClassWritten(Some(Trim(SpaceTerminated(tokens))))
      ensures !force && !(token.Some? && r.Success?) ==> ClassWritten(None)
      ensures !force && token.Some? && r.Success? && WellFormed(old(tokens)) ==>
        element.GetClassName() == ValueOf(tokens).value
    {
      var o: Outcome<DomError>;
      if force {
        o := Add(token);
      } else {
        o := Remove(token);
      }
      if o.Fail? {
        return Failure(o.error);
      }
      return Success(force);
    }

    /** `getValue`. */
    method GetValue() returns (r: Option<string>)
      ensures r == ValueOf(tokens)
    {
      var sz := |tokens|;
      if sz == 0 {
        return Some("");
      }
      if sz == 1 {
        return tokens[0];
      }
      var buf := Show(tokens[0]);
      var i := 1;
      while i < sz
        invariant 1 <= i <= sz
        invariant buf == Join(Shown(tokens[..i]))
      {
        assert Shown(tokens[..i + 1]) == Shown(tokens[..i]) + [Show(tokens[i])];
        JoinSnoc(Shown(tokens[..i]), Show(tokens[i]));
        buf := buf + " " + Show(tokens[i]);
        i := i + 1;
      }
      assert tokens[..sz] == tokens;
      r := Some(buf);
    }

    /** `setValue`: SYNTAX_ERR for `null`; otherwise the list is reset to the
        whitespace-separated pieces, and the class attribute is not touched. */
    method SetValue(value: Option<string>) returns (r: Outcome<DomError>)
      modifies this`tokens
      ensures value.None? ==> r == Fail(SyntaxErr) && tokens == old(tokens)
      ensures value.Some? ==> r.Pass? && tokens == TokensOf(value.value)
    {
      if value.None? {
        return Fail(SyntaxErr);
      }
      tokens := [];
      var pieces := Tokenize(value.value);
      for i := 0 to |pieces|
        invariant |tokens| == i && forall j :: 0 <= j < i ==> tokens[j] == Some(pieces[j])
      {
        tokens := tokens + [Some(pieces[i])];
      }
      return Pass;
    }

    /** `replace`. */
    method Replace(oldToken: Option<string>, newToken: Option<string>) returns (r: bool)
      modifies this`tokens
      ensures (tokens, r) == ReplaceTokens(old(tokens), oldToken, newToken)
    {
      if NotBlank(oldToken) && IsBlank(newToken) {
        var idx := IndexOf(tokens, oldToken);
        if idx != -1 {
          tokens := tokens[idx := newToken];
          return true;
        }
      }
      return false;
    }

    /** `supports`: always false. */
    function Supports(token: Option<string>): (r: bool)
      ensures !r
    {
      false
    }

    /** `populate`: as `add`, but a blank token is skipped rather than
        refused, a token with a tab enters only the class name, and the class
        name is joined without the tab/newline test. */
    method Populate(token: Option<string>)
      requires element.Valid()
      modifies this`tokens, element`attributes, element`localStyle, element`id
      modifies element.Repr()`currentStyle, element.Repr()`computedStyles
      ensures tokens == PopulateTokens(old(tokens), token)
      ensures ClassWritten(PopulateClassWrite(old(tokens), token, old(element.GetClassName())))
    {
      if token.Some? && token !in tokens {
        var tok := Trim(token.value);
        if NotBlank(Some(tok)) {
          if '\t' !in tok {
            tokens := tokens + [Some(tok)];
          }
          var className := element.GetClassName();
          if !Contains(className, tok) {
            element.SetClassName(if NotBlank(Some(className)) then Trim(className) + " " + tok else tok);
          }
        }
      }
    }
  }

  /** `ElementImpl.getClassList`: a new list populated from the pieces of a
      non-blank class name. Every piece already occurs in the class name, so
      the element is left as it was. */
  method GetClassList(element: Element) returns (list: DomTokenList)
    requires element.Valid()
    modifies element`attributes, element`localStyle, element`id
    modifies element.Repr()`currentStyle, element.Repr()`computedStyles
    ensures fresh(list) && list.element == element
    ensures list.tokens == if NotBlank(Some(old(element.GetClassName())))
      then PopulateAll([], SplitSpaces(old(element.GetClassName()))) else []
    ensures element.attributes == old(element.attributes) && element.id == old(element.id)
    ensures element.localStyle == old(element.localStyle)
    ensures forall e :: e in element.Repr() ==>
      e.currentStyle == old(e.currentStyle) && e.computedStyles == old(e.computedStyles)
  {
    list := new DomTokenList(element);
    var className := element.GetClassName();
    if NotBlank(Some(className)) {
      var names := SplitSpaces(className);
      for i := 0 to |names|
        invariant list.tokens == PopulateAll([], names[..i])
        invariant element.attributes == old(element.attributes) && element.id == old(element.id)
        invariant element.localStyle == old(element.localStyle)
        invariant forall e :: e in element.Repr() ==>
          e.currentStyle == old(e.currentStyle) && e.computedStyles == old(e.computedStyles)
      {
        PopulatePieceWritesNothing(list.tokens, className, i);
        assert names[..i + 1][..i] == names[..i];
        list.Populate(Some(names[i]));
      }
      assert names[..|names|] == names;
    }
  }
}
