/** Literal pattern matching on the target string: the specification
    predicates, the matching helper of simple-regex.js and the two searches
    (first candidate, first occurrence) that `oneOf` and `until` perform. */
module Matching {
  import opened Wrappers

  /** `pattern` occurs in `target` at offset `i`: a non-empty pattern ends
      inside `target`, and every character of it equals the character of
      `target` at the same distance from `i`. The empty pattern occurs at every
      offset, even one past the end of `target`, as it does for the helper below. */
  predicate PatternAt(target: seq<char>, pattern: seq<char>, i: nat)
  {
    (pattern == [] || i + |pattern| <= |target|) &&
    forall k: nat :: k < |pattern| ==> pattern[k] == target[i + k]
  }

  /** The same relation as a slice equality: a non-empty pattern occurs at `i`
      exactly when it fits before the end and `target[i..i + |pattern|]` is it. */
  lemma PatternAtSlice(target: seq<char>, pattern: seq<char>, i: nat)
    ensures PatternAt(target, pattern, i) <==>
            pattern == [] || (i + |pattern| <= |target| && target[i..i + |pattern|] == pattern)
  {
  }

  /** A non-empty pattern whose first `k + 1` characters would reach the end
      of `target` from `pos` occurs nowhere at or after `pos`: this is why
      `until` may give up as soon as one attempt runs off the end. */
  lemma RunsOffEnd(target: seq<char>, pattern: seq<char>, pos: nat, k: nat)
    requires k < |pattern| && pos + k >= |target|
    ensures forall q: nat :: pos <= q ==> !PatternAt(target, pattern, q)
  {
  }

  /** `_matchTargetWithPattern`: compares `pattern` with `target` character by
      character from `initTargetIndex`, and answers the pattern's length on a
      match and -1 on a mismatch or when the pattern would run past the end. */
  method MatchTargetWithPattern(target: seq<char>, pattern: seq<char>, initTargetIndex: nat)
    returns (r: int)
    ensures PatternAt(target, pattern, initTargetIndex) ==> r == |pattern|
    ensures !PatternAt(target, pattern, initTargetIndex) ==> r == -1
  {
    var patternIndex := 0;
    while patternIndex < |pattern|
      invariant 0 <= patternIndex <= |pattern|
      invariant patternIndex == 0 || initTargetIndex + patternIndex <= |target|
      invariant forall k: nat :: k < patternIndex ==> pattern[k] == target[initTargetIndex + k]
    {
      var targetIndex := initTargetIndex + patternIndex;
      if targetIndex >= |target| {
        return -1;
      }
      if target[targetIndex] == pattern[patternIndex] {
        patternIndex := patternIndex + 1;
      } else {
        return -1;
      }
    }
    return patternIndex;
  }

  /** The index of the first of `patterns`, in argument order, that occurs in
      `target` at `i`; None when there is none (in particular when `patterns`
      is empty). */
  function FirstMatching(target: seq<char>, patterns: seq<seq<char>>, i: nat): (r: Option<nat>)
    ensures r.Some? ==> r.value < |patterns| && PatternAt(target, patterns[r.value], i)
    decreases |patterns|
  {
    if patterns == [] then None
    else if PatternAt(target, patterns[0], i) then Some(0)
    else match FirstMatching(target, patterns[1..], i)
      case None => None
      case Some(k) => Some(k + 1)
  }

  /** FirstMatching picks candidate `k` exactly when `k` matches and no
      earlier candidate does: a later candidate never wins over an earlier
      one, even when it is longer. */
  lemma {:induction false} FirstMatchingIsFirst(target: seq<char>, patterns: seq<seq<char>>, i: nat, k: nat)
    ensures FirstMatching(target, patterns, i) == Some(k) <==>
            k < |patterns| && PatternAt(target, patterns[k], i) &&
            forall j :: 0 <= j < k ==> !PatternAt(target, patterns[j], i)
    decreases |patterns|
  {
    if patterns != [] && !PatternAt(target, patterns[0], i) && 0 < k < |patterns| {
      FirstMatchingIsFirst(target, patterns[1..], i, k - 1);
      assert forall j :: 0 <= j < k - 1 ==> patterns[1..][j] == patterns[j + 1];
    }
  }

  /** FirstMatching finds nothing exactly when no candidate matches. */
  lemma {:induction false} FirstMatchingNone(target: seq<char>, patterns: seq<seq<char>>, i: nat)
    ensures FirstMatching(target, patterns, i) == None <==>
            forall j :: 0 <= j < |patterns| ==> !PatternAt(target, patterns[j], i)
    decreases |patterns|
  {
    if patterns != [] {
      FirstMatchingNone(target, patterns[1..], i);
      assert forall j :: 0 <= j < |patterns| - 1 ==> patterns[1..][j] == patterns[j + 1];
    }
  }

  /** The smallest offset `q >= from` at which `pattern` occurs in `target`;
      None when there is none. An empty pattern occurs at `from` itself. */
  function FirstOccurrence(target: seq<char>, pattern: seq<char>, from: nat): (r: Option<nat>)
    ensures r.Some? ==> from <= r.value && PatternAt(target, pattern, r.value)
    decreases |target| - from
  {
    if PatternAt(target, pattern, from) then Some(from)
    else if from >= |target| then None
    else FirstOccurrence(target, pattern, from + 1)
  }

  /** FirstOccurrence reports offset `q` exactly when the pattern occurs at
      `q`, `q` is not before `from`, and the pattern occurs nowhere between
      `from` and `q`. */
  lemma {:induction false} FirstOccurrenceIsFirst(target: seq<char>, pattern: seq<char>, from: nat, q: nat)
    ensures FirstOccurrence(target, pattern, from) == Some(q) <==>
            from <= q && PatternAt(target, pattern, q) &&
            forall j: nat :: from <= j < q ==> !PatternAt(target, pattern, j)
    decreases |target| - from
  {
    if !PatternAt(target, pattern, from) && from < q {
      if from < |target| {
        FirstOccurrenceIsFirst(target, pattern, from + 1, q);
      } else {
        // past the end only the empty pattern occurs, and it occurs everywhere
        assert pattern != [];
      }
    }
  }

  /** FirstOccurrence finds nothing exactly when the pattern occurs at no
      offset from `from` on. */
  lemma {:induction false} FirstOccurrenceNone(target: seq<char>, pattern: seq<char>, from: nat)
    ensures FirstOccurrence(target, pattern, from) == None <==>
            forall q: nat :: from <= q ==> !PatternAt(target, pattern, q)
    decreases |target| - from
  {
    if !PatternAt(target, pattern, from) {
      if from >= |target| {
        // a pattern that does not occur at `from` is not empty
        assert pattern != [];
        RunsOffEnd(target, pattern, from, 0);
      } else {
        FirstOccurrenceNone(target, pattern, from + 1);
      }
    }
  }
}
