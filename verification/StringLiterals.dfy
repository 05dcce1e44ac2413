/** Compile-time string search (lib/consthelpers.hpp) and `is_retval` (lib/retvalserialisation.h). */
module StringLiterals {
  import opened Escaping

  const SIZE_MAX: nat := 0xFFFF_FFFF_FFFF_FFFF

  /** `operator==`. */
  function Equal(a: string, b: string): bool {
    |a| == |b| && (a == "" || (a[0] == b[0] && Equal(a[1..], b[1..])))
  }

  function DropBack(s: string, count: nat): string
    requires count <= |s|
  {
    s[..|s| - count]
  }

  function TakeFront(s: string, count: nat): string
    requires count <= |s|
  {
    if count == |s| then s else DropBack(s, |s| - count)
  }

  predicate StartsWith(s: string, other: string) {
    |s| >= |other| && Equal(TakeFront(s, |other|), other)
  }

  predicate Contains(s: string, other: string) {
    StartsWith(s, other) || (s != "" && Contains(s[1..], other))
  }

  /** `find`, in the arithmetic of `size_t`; a failed search gives -1, that is `SIZE_MAX`. */
  function FindLiteral(s: string, other: string): nat {
    if !Contains(s, other) then SIZE_MAX
    else if StartsWith(s, other) then 0
    else (1 + FindLiteral(s[1..], other)) % (SIZE_MAX + 1)
  }

  /** A parameter is returned to the caller when its type text says so. */
  predicate IsRetval(typeText: string) {
    Contains(typeText, "&") && !Contains(typeText, "const")
  }

  lemma {:induction false} EqualIsEquality(a: string, b: string)
    ensures Equal(a, b) <==> a == b
  {
    if |a| == |b| && a != "" {
      EqualIsEquality(a[1..], b[1..]);
      assert a == [a[0]] + a[1..] && b == [b[0]] + b[1..];
    }
  }

  lemma {:induction false} StartsWithIsPrefix(s: string, other: string)
    ensures StartsWith(s, other) <==> OccursAt(s, other, 0)
  {
    if |s| >= |other| {
      EqualIsEquality(TakeFront(s, |other|), other);
    }
  }

  /** A match behind the first character, seen from the rest of the string. */
  lemma {:induction false} OccursInTail(s: string, other: string, i: nat)
    requires s != ""
    ensures OccursAt(s[1..], other, i) <==> OccursAt(s, other, i + 1)
  {
    if i + 1 + |other| <= |s| {
      assert s[1..][i..i + |other|] == s[i + 1..i + 1 + |other|];
    }
  }

  /** `contains` holds exactly when some offset matches. */
  lemma {:induction false} ContainsExactly(s: string, other: string)
    ensures Contains(s, other) <==> exists i: nat :: OccursAt(s, other, i)
  {
    StartsWithIsPrefix(s, other);
    if s != "" {
      ContainsExactly(s[1..], other);
      if Contains(s[1..], other) {
        var i: nat :| OccursAt(s[1..], other, i);
        OccursInTail(s, other, i);
      }
      forall i: nat | OccursAt(s, other, i) ensures Contains(s, other) {
        if i > 0 {
          OccursInTail(s, other, i - 1);
        }
      }
    }
  }

  /** `find` gives the least matching offset, and the all-ones value exactly when there is none. */
  lemma {:induction false} FindLiteralIsLeast(s: string, other: string)
    requires |s| < SIZE_MAX
    ensures FindLiteral(s, other) == SIZE_MAX <==> !Contains(s, other)
    ensures Contains(s, other) ==>
              var at := FindLiteral(s, other);
              at <= |s| && OccursAt(s, other, at) && forall i: nat :: i < at ==> !OccursAt(s, other, i)
  {
    StartsWithIsPrefix(s, other);
    if Contains(s, other) && !StartsWith(s, other) {
      FindLiteralIsLeast(s[1..], other);
      var at := FindLiteral(s[1..], other);
      assert 1 + at < SIZE_MAX + 1 && FindLiteral(s, other) == 1 + at;
      OccursInTail(s, other, at);
      forall i: nat | i < at + 1 ensures !OccursAt(s, other, i) {
        if i > 0 {
          OccursInTail(s, other, i - 1);
        }
      }
    }
  }

  /** By-reference results are exactly the types with an `&` and no occurrence of `const`. */
  lemma {:induction false} IsRetvalExactly(typeText: string)
    ensures IsRetval(typeText) <==> '&' in typeText && forall i: nat :: !OccursAt(typeText, "const", i)
  {
    ContainsExactly(typeText, "&");
    ContainsExactly(typeText, "const");
    forall i: nat ensures OccursAt(typeText, "&", i) <==> i < |typeText| && typeText[i] == '&' {
    }
    if '&' in typeText {
      var i :| 0 <= i < |typeText| && typeText[i] == '&';
      assert OccursAt(typeText, "&", i);
    }
  }
}
