/**
 * The string helpers the DOM code leans on: `String.trim`, the blank test,
 * ASCII case mapping, `equalsIgnoreCase`, `contains`, whitespace tokenising
 * as `java.util.StringTokenizer` does it, and joining with single spaces.
 */
module JavaText {
  import opened Wrappers

  /** `String.trim` strips every character whose code is at most U+0020. */
  predicate IsTrimmable(c: char) {
    c <= ' '
  }

  function TrimStart(s: string): string
    decreases |s|
  {
    if s != [] && IsTrimmable(s[0]) then TrimStart(s[1..]) else s
  }

  function TrimEnd(s: string): string
    decreases |s|
  {
    if s != [] && IsTrimmable(s[|s| - 1]) then TrimEnd(s[..|s| - 1]) else s
  }

  /** `TrimStart` removes a run of trimmable characters from the front, and
      no more. */
  lemma {:induction false} TrimStartSpec(s: string)
    ensures |TrimStart(s)| <= |s| && TrimStart(s) == s[|s| - |TrimStart(s)|..]
    ensures TrimStart(s) == [] || !IsTrimmable(TrimStart(s)[0])
    ensures forall k :: 0 <= k < |s| - |TrimStart(s)| ==> IsTrimmable(s[k])
    decreases |s|
  {
    if s != [] && IsTrimmable(s[0]) {
      TrimStartSpec(s[1..]);
      forall k | 0 <= k < |s| - |TrimStart(s)| ensures IsTrimmable(s[k]) {
        if k > 0 {
          assert s[k] == s[1..][k - 1];
        }
      }
    }
  }

  /** `TrimEnd` removes a run of trimmable characters from the back, and
      no more. */
  lemma {:induction false} TrimEndSpec(s: string)
    ensures |TrimEnd(s)| <= |s| && TrimEnd(s) == s[..|TrimEnd(s)|]
    ensures TrimEnd(s) == [] || !IsTrimmable(TrimEnd(s)[|TrimEnd(s)| - 1])
    ensures forall k :: |TrimEnd(s)| <= k < |s| ==> IsTrimmable(s[k])
    decreases |s|
  {
    if s != [] && IsTrimmable(s[|s| - 1]) {
      TrimEndSpec(s[..|s| - 1]);
      forall k | |TrimEnd(s)| <= k < |s| ensures IsTrimmable(s[k]) {
        if k < |s| - 1 {
          assert s[k] == s[..|s| - 1][k];
        }
      }
    }
  }

  /** `String.trim`: the slice of `s` left once the trimmable characters at
      both ends are cut off. */
  function Trim(s: string): (r: string)
    ensures |r| <= |s|
    ensures r == [] || (!IsTrimmable(r[0]) && !IsTrimmable(r[|r| - 1]))
    ensures exists a, b :: 0 <= a <= b <= |s| && r == s[a..b] && AllTrimmable(s[..a]) && AllTrimmable(s[b..])
  {
    var t := TrimStart(s);
    TrimStartSpec(s);
    TrimEndSpec(t);
    var r := TrimEnd(t);
    var a := |s| - |t|;
    assert r == s[a..a + |r|];
    assert AllTrimmable(s[..a]);
    var tail := s[a + |r|..];
    assert AllTrimmable(tail) by {
      forall k | 0 <= k < |tail|
        ensures IsTrimmable(tail[k])
      {
        assert tail[k] == t[|r| + k];
      }
    }
    r
  }

  /** A string with nothing to trim is its own trimmed form. */
  lemma TrimUntrimmable(s: string)
    requires s == [] || (!IsTrimmable(s[0]) && !IsTrimmable(s[|s| - 1]))
    ensures Trim(s) == s
  {
  }

  /** Trimming only ever removes characters at most U+0020, so a string is
      blank exactly when every character in it is. */
  lemma {:induction false} TrimEmptyIff(s: string)
    ensures Trim(s) == [] <==> AllTrimmable(s)
  {
    var t := TrimStart(s);
    TrimStartSpec(s);
    TrimEndSpec(t);
    if t != [] {
      assert !IsTrimmable(s[|s| - |t|]);
    }
  }

  /** `Strings.isBlank`: null, or nothing left after trimming. */
  predicate IsBlank(v: Option<string>) {
    v.None? || Trim(v.value) == []
  }

  predicate NotBlank(v: Option<string>) {
    !IsBlank(v)
  }

  predicate AllTrimmable(s: string) {
    forall k :: 0 <= k < |s| ==> IsTrimmable(s[k])
  }

  lemma AllTrimmableConcat(a: string, b: string)
    ensures AllTrimmable(a + b) <==> AllTrimmable(a) && AllTrimmable(b)
  {
    if AllTrimmable(a + b) {
      forall k | 0 <= k < |a| ensures IsTrimmable(a[k]) {
        assert (a + b)[k] == a[k];
      }
      forall k | 0 <= k < |b| ensures IsTrimmable(b[k]) {
        assert (a + b)[|a| + k] == b[k];
      }
    }
    if AllTrimmable(a) && AllTrimmable(b) {
      forall k | 0 <= k < |a + b| ensures IsTrimmable((a + b)[k]) {
        if k < |a| {
          assert (a + b)[k] == a[k];
        } else {
          assert (a + b)[k] == b[k - |a|];
        }
      }
    }
  }

  /** Two strings put together are blank exactly when both are. */
  lemma {:induction false} BlankConcat(a: string, b: string)
    ensures IsBlank(Some(a + b)) <==> IsBlank(Some(a)) && IsBlank(Some(b))
  {
    TrimEmptyIff(a);
    TrimEmptyIff(b);
    TrimEmptyIff(a + b);
    AllTrimmableConcat(a, b);
  }

  function LowerChar(c: char): (r: char)
    ensures 'A' <= c <= 'Z' ==> 'a' <= r <= 'z'
    ensures !('A' <= c <= 'Z') ==> r == c
  {
    if 'A' <= c <= 'Z' then (c as int + 32) as char else c
  }

  function UpperChar(c: char): (r: char)
    ensures 'a' <= c <= 'z' ==> 'A' <= r <= 'Z'
    ensures !('a' <= c <= 'z') ==> r == c
  {
    if 'a' <= c <= 'z' then (c as int - 32) as char else c
  }

  /** `String.toLowerCase`, on the ASCII letters. */
  function Lower(s: string): (r: string)
    ensures |r| == |s| && forall k :: 0 <= k < |s| ==> r[k] == LowerChar(s[k])
  {
    seq(|s|, k requires 0 <= k < |s| => LowerChar(s[k]))
  }

  /** `String.toUpperCase`, on the ASCII letters. */
  function Upper(s: string): (r: string)
    ensures |r| == |s| && forall k :: 0 <= k < |s| ==> r[k] == UpperChar(s[k])
  {
    seq(|s|, k requires 0 <= k < |s| => UpperChar(s[k]))
  }

  lemma LowerIdempotent(s: string)
    ensures Lower(Lower(s)) == Lower(s)
  {
  }

  /** `Character` comparison in `String.equalsIgnoreCase`: equal, or equal
      after upper-casing, or equal after lower-casing. */
  predicate CharEqualsIgnoreCase(a: char, b: char) {
    a == b || UpperChar(a) == UpperChar(b) || LowerChar(a) == LowerChar(b)
  }

  /** `String.equalsIgnoreCase` (a null argument is a `None` and never equal). */
  predicate EqualsIgnoreCase(a: string, b: Option<string>) {
    b.Some? && |a| == |b.value| &&
    forall k :: 0 <= k < |a| ==> CharEqualsIgnoreCase(a[k], b.value[k])
  }

  /** On ASCII case mapping, ignoring case is comparing the lower-cased forms. */
  lemma EqualsIgnoreCaseIsLowerEquality(a: string, b: string)
    ensures EqualsIgnoreCase(a, Some(b)) <==> Lower(a) == Lower(b)
  {
    if Lower(a) == Lower(b) {
      assert forall k :: 0 <= k < |a| ==> LowerChar(a[k]) == Lower(b)[k];
    }
  }

  predicate StartsWith(s: string, prefix: string) {
    |prefix| <= |s| && s[..|prefix|] == prefix
  }

  predicate EndsWith(s: string, suffix: string) {
    |suffix| <= |s| && s[|s| - |suffix|..] == suffix
  }

  predicate OccursAt(s: string, sub: string, k: int) {
    0 <= k <= |s| - |sub| && s[k..k + |sub|] == sub
  }

  /** `String.contains` for a string argument. */
  predicate Contains(s: string, sub: string) {
    exists k :: 0 <= k <= |s| - |sub| && OccursAt(s, sub, k)
  }

  /** The default delimiters of `java.util.StringTokenizer`. */
  predicate IsDelimiter(c: char) {
    c == ' ' || c == '\t' || c == '\n' || c == '\r' || c == '\U{000C}'
  }

  predicate IsToken(t: string) {
    t != [] && forall k :: 0 <= k < |t| ==> !IsDelimiter(t[k])
  }

  /** Length of the run of non-delimiters at the start of `s`. */
  function TokenLength(s: string): (n: nat)
    ensures n <= |s|
    ensures forall k :: 0 <= k < n ==> !IsDelimiter(s[k])
    ensures n < |s| ==> IsDelimiter(s[n])
  {
    if s == [] || IsDelimiter(s[0]) then 0 else 1 + TokenLength(s[1..])
  }

  /** The tokens `StringTokenizer(s)` hands out, in order. */
  function Tokenize(s: string): (r: seq<string>)
    ensures forall i :: 0 <= i < |r| ==> IsToken(r[i])
    decreases |s|
  {
    if s == [] then []
    else if IsDelimiter(s[0]) then Tokenize(s[1..])
    else
      var n := TokenLength(s);
      [s[..n]] + Tokenize(s[n..])
  }

  /** The tokens joined with single spaces. */
  function Join(ts: seq<string>): string {
    if ts == [] then ""
    else if |ts| == 1 then ts[0]
    else ts[0] + " " + Join(ts[1..])
  }

  lemma {:induction false} TokenLengthOfToken(t: string, rest: string)
    requires IsToken(t)
    requires rest == [] || IsDelimiter(rest[0])
    ensures TokenLength(t + rest) == |t|
    decreases |t|
  {
    if |t| > 1 {
      assert (t + rest)[1..] == t[1..] + rest;
      TokenLengthOfToken(t[1..], rest);
    }
  }

  /** Splitting what `Join` built gives back the tokens. */
  lemma {:induction false} TokenizeJoin(ts: seq<string>)
    requires forall i :: 0 <= i < |ts| ==> IsToken(ts[i])
    ensures Tokenize(Join(ts)) == ts
  {
    if ts == [] {
    } else if |ts| == 1 {
      var t := ts[0];
      TokenLengthOfToken(t, "");
      assert t + "" == t;
      assert t[|t|..] == [];
    } else {
      var t, rest := ts[0], " " + Join(ts[1..]);
      var s := t + rest;
      assert Join(ts) == s;
      TokenLengthOfToken(t, rest);
      assert s[..|t|] == t;
      assert s[|t|..] == rest;
      assert rest[1..] == Join(ts[1..]);
      TokenizeJoin(ts[1..]);
    }
  }

  /** One trailing space comes off again, and nothing else does, when
      the text has no trimmable character at either end. */
  lemma TrimPadded(s: string)
    requires s != [] && !IsTrimmable(s[0]) && !IsTrimmable(s[|s| - 1])
    ensures Trim(s + " ") == s
  {
    var p := s + " ";
    assert TrimStart(p) == p;
    assert p[..|p| - 1] == s;
    assert TrimEnd(p) == TrimEnd(s);
  }

  /** A part `s[i..j]` of a string occurs in it. */
  lemma SliceContained(s: string, i: nat, j: nat)
    requires i <= j <= |s|
    ensures Contains(s, s[i..j])
  {
    assert OccursAt(s, s[i..j], i);
  }

  /** What occurs in a part of a string occurs in the string. */
  lemma ContainsTransitive(s: string, t: string, u: string)
    requires Contains(s, t) && Contains(t, u)
    ensures Contains(s, u)
  {
    var a :| 0 <= a <= |s| - |t| && OccursAt(s, t, a);
    var b :| 0 <= b <= |t| - |u| && OccursAt(t, u, b);
    forall k | 0 <= k < |u| ensures s[a + b + k] == u[k] {
      assert u[k] == t[b + k] == s[a..a + |t|][b + k];
    }
    assert s[a + b..a + b + |u|] == u;
    assert OccursAt(s, u, a + b);
  }

  /** The trimmed form of a string occurs in it. */
  lemma TrimContained(s: string)
    ensures Contains(s, Trim(s))
  {
    var t := TrimStart(s);
    TrimStartSpec(s);
    TrimEndSpec(t);
    SliceContained(s, |s| - |t|, |s|);
    assert s[|s| - |t|..|s|] == t;
    SliceContained(t, 0, |TrimEnd(t)|);
    assert t[0..|TrimEnd(t)|] == Trim(s);
    ContainsTransitive(s, t, Trim(s));
  }

  /** Joining one more token adds a space and the token at the end. */
  lemma {:induction false} JoinSnoc(ts: seq<string>, t: string)
    requires ts != []
    ensures Join(ts + [t]) == Join(ts) + " " + t
  {
    if |ts| == 1 {
      assert (ts + [t])[1..] == [t];
    } else {
      assert (ts + [t])[1..] == ts[1..] + [t];
      JoinSnoc(ts[1..], t);
    }
  }

  /** The joined text begins with the first token's first character and ends
      with the last token's last character. */
  lemma {:induction false} JoinEnds(ts: seq<string>)
    requires ts != [] && forall i :: 0 <= i < |ts| ==> ts[i] != []
    ensures Join(ts) != [] && Join(ts)[0] == ts[0][0]
    ensures Join(ts)[|Join(ts)| - 1] == ts[|ts| - 1][|ts[|ts| - 1]| - 1]
  {
    if |ts| > 1 {
      JoinEnds(ts[1..]);
    }
  }

  /** Lower-cases the name: `HTML`, `Html` and `html` address one attribute. */
  function NormalizeAttributeName(name: string): string {
    Lower(name)
  }

  lemma NormalizeIdempotent(name: string)
    ensures NormalizeAttributeName(NormalizeAttributeName(name)) == NormalizeAttributeName(name)
  {
  }
}
