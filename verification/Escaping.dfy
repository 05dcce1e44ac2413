/** `replaceInString` and the escaping of quotes in printed strings (lib/serialisation.cpp). */
module Escaping {
  import opened Results

  predicate OccursAt(s: string, pattern: string, i: nat) {
    i + |pattern| <= |s| && s[i..i + |pattern|] == pattern
  }

  /** `std::string::find(pattern, pos)`: the least match at or after `pos`. */
  function Find(s: string, pattern: string, pos: nat): (r: Option<nat>)
    requires pos <= |s|
    ensures r.Some? ==> pos <= r.value && OccursAt(s, pattern, r.value)
    ensures forall i :: pos <= i < (if r.Some? then r.value else |s| + 1) ==> !OccursAt(s, pattern, i)
    decreases |s| - pos
  {
    if OccursAt(s, pattern, pos) then Some(pos)
    else if pos == |s| then None
    else Find(s, pattern, pos + 1)
  }

  /** Left-to-right replacement of non-overlapping matches: what `replaceInString` has to compute. */
  function ReplaceAll(s: string, search: string, replacement: string): string
    requires search != ""
    decreases |s|
  {
    if s == "" then ""
    else if OccursAt(s, search, 0) then replacement + ReplaceAll(s[|search|..], search, replacement)
    else [s[0]] + ReplaceAll(s[1..], search, replacement)
  }

  lemma {:induction false} OccursAtSuffix(s: string, pattern: string, pos: nat)
    requires pos <= |s|
    ensures OccursAt(s[pos..], pattern, 0) <==> OccursAt(s, pattern, pos)
  {
    if pos + |pattern| <= |s| {
      assert s[pos..][0..|pattern|] == s[pos..pos + |pattern|];
    }
  }

  /** Text between `pos` and `at` in which no match starts is copied. */
  lemma {:induction false} ReplaceAllSkips(s: string, search: string, replacement: string, pos: nat, at: nat)
    requires search != "" && pos <= at <= |s|
    requires forall i :: pos <= i < at ==> !OccursAt(s, search, i)
    ensures ReplaceAll(s[pos..], search, replacement) == s[pos..at] + ReplaceAll(s[at..], search, replacement)
    decreases at - pos
  {
    if pos < at {
      OccursAtSuffix(s, search, pos);
      assert s[pos..][1..] == s[pos + 1..];
      ReplaceAllSkips(s, search, replacement, pos + 1, at);
      assert s[pos..at] == [s[pos]] + s[pos + 1..at];
    }
  }

  /** One round of the loop at the next match `at` keeps the final result. */
  lemma {:induction false} ReplaceAllRound(s: string, search: string, replacement: string, pos: nat, at: nat)
    requires search != "" && pos <= at && OccursAt(s, search, at)
    requires forall i :: pos <= i < at ==> !OccursAt(s, search, i)
    ensures s[..pos] + ReplaceAll(s[pos..], search, replacement) ==
            (s[..at] + replacement) + ReplaceAll(s[at + |search|..], search, replacement)
  {
    ReplaceAllSkips(s, search, replacement, pos, at);
    OccursAtSuffix(s, search, at);
    assert s[at..][|search|..] == s[at + |search|..];
    assert s[..at] == s[..pos] + s[pos..at];
  }

  /** The loop of `replaceInString`. The part of the subject after `pos` gets shorter each time round,
      also when the replacement contains the search string. */
  method ReplaceInString(subject: string, search: string, replacement: string) returns (r: string)
    requires search != ""
    ensures r == ReplaceAll(subject, search, replacement)
  {
    r := subject;
    var pos := 0;
    ghost var whole := ReplaceAll(subject, search, replacement);
    assert whole == r[..0] + ReplaceAll(r[0..], search, replacement) by { assert r[0..] == r; }
    while true
      invariant 0 <= pos <= |r|
      invariant whole == r[..pos] + ReplaceAll(r[pos..], search, replacement)
      decreases |r| - pos
    {
      var at := Find(r, search, pos);
      if at.None? {
        ReplaceAllSkips(r, search, replacement, pos, |r|);
        return;
      }
      ReplaceAllRound(r, search, replacement, pos, at.value);
      var before, after := r[..at.value] + replacement, r[at.value + |search|..];
      r, pos := before + after, |before|;
      assert r[..pos] == before && r[pos..] == after;
    }
  }

  /** The text between the quotes of a printed string. */
  function Escape(s: string): string {
    ReplaceAll(s, "\"", "\\\"")
  }

  lemma {:induction false} EscapeStep(s: string)
    requires s != ""
    ensures Escape(s) == (if s[0] == '"' then "\\\"" else [s[0]]) + Escape(s[1..])
  {
    assert OccursAt(s, "\"", 0) <==> s[0] == '"';
  }

  predicate EndsInBackslash(s: string) {
    s != "" && s[|s| - 1] == '\\'
  }

  lemma {:induction false} EscapeLastChar(s: string)
    ensures |Escape(s)| >= |s|
    ensures EndsInBackslash(Escape(s)) <==> EndsInBackslash(s)
  {
    if s == "" {
    } else {
      EscapeStep(s);
      EscapeLastChar(s[1..]);
    }
  }

  /** Escaping is the identity exactly on the strings without a quote. */
  lemma {:induction false} EscapeIsIdentity(s: string)
    ensures Escape(s) == s <==> '"' !in s
    ensures '"' in s ==> |Escape(s)| > |s|
  {
    if s == "" {
    } else {
      EscapeStep(s);
      EscapeLastChar(s[1..]);
      EscapeIsIdentity(s[1..]);
      assert s == [s[0]] + s[1..];
    }
  }
}
