/** Nesting depth of bracketed text, as `nextToken` counts it: one kind of bracket, quotes ignored. */
module Brackets {
  datatype Bracket = Square | Curly {
    function Open(): char {
      if Square? then '[' else '{'
    }

    function Close(): char {
      if Square? then ']' else '}'
    }

    /** The depth after one more character. */
    function Bump(c: char, depth: int): int {
      if c == Open() then depth + 1 else if c == Close() then depth - 1 else depth
    }
  }

  function DepthAfter(s: string, b: Bracket, depth: int): int {
    if s == "" then depth else DepthAfter(s[1..], b, b.Bump(s[0], depth))
  }

  /** Reading `s` from `depth`, the scope that was open is never closed. */
  predicate Stays(s: string, b: Bracket, depth: int) {
    s == "" || (b.Bump(s[0], depth) >= 1 && Stays(s[1..], b, b.Bump(s[0], depth)))
  }

  /** Text that closes exactly the scopes that it opens. */
  predicate Neutral(s: string, b: Bracket) {
    Stays(s, b, 1) && DepthAfter(s, b, 1) == 1
  }

  /** How many characters the scanning loop takes before the depth is zero or the text ends. */
  function ScopeLength(s: string, b: Bracket, depth: int): (n: nat)
    ensures n <= |s|
  {
    if s == "" || depth <= 0 then 0 else 1 + ScopeLength(s[1..], b, b.Bump(s[0], depth))
  }

  lemma {:induction false} DepthOfConcat(s: string, x: string, b: Bracket, depth: int)
    ensures DepthAfter(s + x, b, depth) == DepthAfter(x, b, DepthAfter(s, b, depth))
    ensures Stays(s + x, b, depth) <==> Stays(s, b, depth) && Stays(x, b, DepthAfter(s, b, depth))
  {
    if s == "" {
      assert s + x == x;
    } else {
      assert (s + x)[1..] == s[1..] + x;
      DepthOfConcat(s[1..], x, b, b.Bump(s[0], depth));
    }
  }

  /** `Stays` in terms of prefixes: every non-empty prefix has depth at least one. */
  lemma {:induction false} StaysIffPrefixesOpen(s: string, b: Bracket, depth: int)
    ensures Stays(s, b, depth) <==> forall k :: 0 < k <= |s| ==> DepthAfter(s[..k], b, depth) >= 1
  {
    if s == "" {
    } else {
      var depth' := b.Bump(s[0], depth);
      StaysIffPrefixesOpen(s[1..], b, depth');
      forall k | 0 < k <= |s| ensures DepthAfter(s[..k], b, depth) == DepthAfter(s[1..][..k - 1], b, depth') {
        assert s[..k][1..] == s[1..][..k - 1];
      }
      assert DepthAfter(s[..1], b, depth) == depth';
      if forall k :: 0 < k <= |s| ==> DepthAfter(s[..k], b, depth) >= 1 {
        forall k | 0 < k <= |s[1..]| ensures DepthAfter(s[1..][..k], b, depth') >= 1 {
          assert DepthAfter(s[..k + 1], b, depth) >= 1;
        }
      }
    }
  }

  lemma {:induction false} DepthShift(s: string, b: Bracket, depth: int, up: nat)
    ensures DepthAfter(s, b, depth + up) == DepthAfter(s, b, depth) + up
    ensures Stays(s, b, depth) ==> Stays(s, b, depth + up)
  {
    if s == "" {
    } else {
      DepthShift(s[1..], b, b.Bump(s[0], depth), up);
    }
  }

  lemma {:induction false} NeutralAt(s: string, b: Bracket, depth: int)
    requires Neutral(s, b) && depth >= 1
    ensures Stays(s, b, depth) && DepthAfter(s, b, depth) == depth
  {
    DepthShift(s, b, 1, depth - 1);
  }

  lemma {:induction false} NeutralConcat(s: string, x: string, b: Bracket)
    requires Neutral(s, b) && Neutral(x, b)
    ensures Neutral(s + x, b)
  {
    DepthOfConcat(s, x, b, 1);
  }

  /** Brackets of either kind around neutral text give neutral text, for both counts. */
  lemma {:induction false} NeutralInBrackets(body: string, outer: Bracket, b: Bracket)
    requires Neutral(body, b)
    ensures Neutral([outer.Open()] + body + [outer.Close()], b)
  {
    var inner := b.Bump(outer.Open(), 1);
    NeutralAt(body, b, inner);
    DepthOfConcat([outer.Open()], body, b, 1);
    DepthOfConcat([outer.Open()] + body, [outer.Close()], b, 1);
  }

  lemma {:induction false} BracketFreeIsNeutral(s: string, b: Bracket)
    requires b.Open() !in s && b.Close() !in s
    ensures Neutral(s, b)
  {
    if s == "" {
    } else {
      BracketFreeIsNeutral(s[1..], b);
    }
  }

  lemma {:induction false} ScopeLengthOfOpen(s: string, x: string, b: Bracket, depth: int)
    requires depth >= 1 && Stays(s, b, depth)
    ensures ScopeLength(s + x, b, depth) == |s| + ScopeLength(x, b, DepthAfter(s, b, depth))
    ensures DepthAfter(s, b, depth) >= 1
  {
    if s == "" {
      assert s + x == x;
    } else {
      assert (s + x)[1..] == s[1..] + x;
      ScopeLengthOfOpen(s[1..], x, b, b.Bump(s[0], depth));
    }
  }

  /** If the scope is closed inside `s`, the scan stops there, just after a closing bracket. */
  lemma {:induction false} ScopeLengthOfClosed(s: string, x: string, b: Bracket, depth: int)
    requires depth >= 1 && !Stays(s, b, depth)
    ensures var k := ScopeLength(s + x, b, depth);
            0 < k <= |s| && s[k - 1] == b.Close() && Stays(s[..k - 1], b, depth)
  {
    assert (s + x)[1..] == s[1..] + x;
    var depth' := b.Bump(s[0], depth);
    if depth' >= 1 {
      ScopeLengthOfClosed(s[1..], x, b, depth');
      var k := ScopeLength(s[1..] + x, b, depth');
      assert s[..k][1..] == s[1..][..k - 1];
    } else {
      assert ScopeLength(s[1..] + x, b, depth') == 0;
    }
  }
}
