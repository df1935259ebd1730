/** The SimpleRegex chainable scanner of simple-regex.js: an immutable target
    string, a cursor into it, the last matched substring, the map of bound
    captures and a sticky error flag. Each JavaScript method that updates the
    object becomes a method here that changes exactly the fields it names. */
module SimpleRegex {
  import opened Wrappers
  import opened Matching

  class SimpleRegex {
    /** The string being scanned; never changed after construction. */
    const target: seq<char>
    /** `_currentIndex`: where the next match is attempted. */
    var idx: nat
    /** `_lastMatch`: None (JavaScript `null`) until something is matched. */
    var lastMatch: Option<seq<char>>
    /** `matches`: the captures bound so far, by label. */
    var matches: map<string, Option<seq<char>>>
    /** `error`: set by a failed strict match; nothing clears it. */
    var error: bool

    /** The cursor stays inside the target or at its end. */
    ghost predicate Valid()
      reads this
    {
      idx <= |target|
    }

    /** Between the state before a call and the state after it the cursor has
        not moved back and an error, once raised, is still raised. */
    twostate predicate Progressed()
      reads this
    {
      old(idx) <= idx && (old(error) ==> error)
    }

    constructor (targetString: seq<char>)
      ensures Valid()
      ensures target == targetString && idx == 0 && lastMatch == None
      ensures matches == map[] && !error
    {
      target := targetString;
      idx := 0;
      lastMatch := None;
      matches := map[];
      error := false;
    }

    /** `then`: the pattern must occur at the cursor. On a match the cursor
        moves past it and it becomes the last match; otherwise the error flag
        is raised and cursor and last match stay as they were. */
    method Then(pattern: seq<char>)
      requires Valid()
      modifies this`idx, this`lastMatch, this`error
      ensures Valid() && Progressed()
      ensures PatternAt(target, pattern, old(idx)) ==>
                idx == old(idx) + |pattern| && lastMatch == Some(pattern) && error == old(error)
      ensures !PatternAt(target, pattern, old(idx)) ==>
                idx == old(idx) && lastMatch == old(lastMatch) && error
    {
      var matchLength := MatchTargetWithPattern(target, pattern, idx);
      if matchLength == -1 {
        error := true;
      } else {
        PatternAtSlice(target, pattern, idx);
        assert target[idx..idx + matchLength] == pattern;
        lastMatch := Some(target[idx..idx + matchLength]);
        idx := idx + matchLength;
      }
    }

    /** `maybe`: like `then` on a match; on a miss the last match becomes the
        empty string and the cursor stays. The error flag is never touched. */
    method Maybe(pattern: seq<char>)
      requires Valid()
      modifies this`idx, this`lastMatch
      ensures Valid() && Progressed()
      ensures PatternAt(target, pattern, old(idx)) ==>
                idx == old(idx) + |pattern| && lastMatch == Some(pattern)
      ensures !PatternAt(target, pattern, old(idx)) ==>
                idx == old(idx) && lastMatch == Some([])
    {
      var matchLength := MatchTargetWithPattern(target, pattern, idx);
      if matchLength == -1 {
        lastMatch := Some([]);
      } else {
        PatternAtSlice(target, pattern, idx);
        assert target[idx..idx + matchLength] == pattern;
        lastMatch := Some(target[idx..idx + matchLength]);
        idx := idx + matchLength;
      }
    }

    /** `oneOf`: the first of `patterns`, in argument order, that occurs at
        the cursor is consumed, as by `then`; when none occurs (also when there
        are none) the error flag is raised and nothing else changes. */
    method OneOf(patterns: seq<seq<char>>)
      requires Valid()
      modifies this`idx, this`lastMatch, this`error
      ensures Valid() && Progressed()
      ensures match FirstMatching(target, patterns, old(idx))
                case Some(k) =>
                  idx == old(idx) + |patterns[k]| && lastMatch == Some(patterns[k]) &&
                  error == old(error)
                case None =>
                  idx == old(idx) && lastMatch == old(lastMatch) && error
    {
      var i := 0;
      while i < |patterns|
        invariant 0 <= i <= |patterns|
        invariant forall j :: 0 <= j < i ==> !PatternAt(target, patterns[j], idx)
        invariant idx == old(idx) && lastMatch == old(lastMatch) && error == old(error)
      {
        var pattern := patterns[i];
        var matchLength := MatchTargetWithPattern(target, pattern, idx);
        if matchLength != -1 {
          FirstMatchingIsFirst(target, patterns, idx, i);
          assert FirstMatching(target, patterns, idx) == Some(i);
          PatternAtSlice(target, pattern, idx);
          assert target[idx..idx + matchLength] == pattern;
          lastMatch := Some(target[idx..idx + matchLength]);
          idx := idx + matchLength;
          return;
        }
        i := i + 1;
      }
      FirstMatchingNone(target, patterns, idx);
      error := true;
    }

    /** `until`: searches forward from the cursor for the first offset at
        which `pattern` occurs, and moves the cursor to the START of that
        occurrence; the text skipped over becomes the last match. When the
        pattern occurs nowhere further on, the error flag is raised and cursor
        and last match stay as they were. */
    method Until(pattern: seq<char>)
      requires Valid()
      modifies this`idx, this`lastMatch, this`error
      ensures Valid() && Progressed()
      ensures match FirstOccurrence(target, pattern, old(idx))
                case Some(q) =>
                  idx == q && lastMatch == Some(target[old(idx)..q]) && error == old(error)
                case None =>
                  idx == old(idx) && lastMatch == old(lastMatch) && error
    {
      var targetStartingPos := idx;
      while true
        invariant idx <= targetStartingPos <= |target|
        invariant FirstOccurrence(target, pattern, idx) ==
                  FirstOccurrence(target, pattern, targetStartingPos)
        invariant idx == old(idx) && lastMatch == old(lastMatch) && error == old(error)
        decreases |target| - targetStartingPos
      {
        var patternMatched := true;
        var patternIndex := 0;
        while patternIndex < |pattern|
          invariant 0 <= patternIndex <= |pattern|
          invariant targetStartingPos + patternIndex <= |target|
          invariant forall k: nat :: k < patternIndex ==>
                      pattern[k] == target[targetStartingPos + k]
        {
          var targetIndex := targetStartingPos + patternIndex;
          if targetIndex >= |target| {
            RunsOffEnd(target, pattern, targetStartingPos, patternIndex);
            FirstOccurrenceNone(target, pattern, targetStartingPos);
            error := true;
            return;
          }
          if target[targetIndex] != pattern[patternIndex] {
            patternMatched := false;
            break;
          }
          patternIndex := patternIndex + 1;
        }
        if patternMatched {
          lastMatch := Some(target[idx..targetStartingPos]);
          idx := targetStartingPos;
          return;
        }
        targetStartingPos := targetStartingPos + 1;
      }
    }

    /** `bindVar`: records the last match under `key`, replacing any earlier
        binding of `key`; no other binding and no other field changes. */
    method BindVar(key: string)
      requires Valid()
      modifies this`matches
      ensures Valid() && Progressed()
      ensures matches == old(matches)[key := lastMatch]
    {
      matches := matches[key := lastMatch];
    }
  }
}
