# SimpleRegex scanner, modelled in Dafny

SimpleRegex is a chainable scanner over an immutable target string. A chain of
calls moves a cursor (`_currentIndex`) through the string: `then` consumes a
literal that must be there, `maybe` one that may be there, `oneOf` the first of
several literals that is there, and `until` skips forward to the next occurrence
of a literal without consuming it. Each successful step records the text it
went over as the last match (`_lastMatch`, JavaScript `null` before the first
one), `bindVar` stores the last match under a label in the `matches`
dictionary, and a strict step that fails raises the `error` flag, which nothing
clears. Failures never throw and never stop the chain: later calls still run.

The project has four modules:

- `Wrappers` (wrappers.dfy): the `Option` type used for the last match.
- `Matching` (matching.dfy): the pure side. `PatternAt(target, pattern, i)` says
  the literal occurs at offset `i`. `MatchTargetWithPattern` is the
  `_matchTargetWithPattern` loop, proved to answer `|pattern|` or -1 exactly as
  `PatternAt` says. `FirstMatching` and `FirstOccurrence` are reference
  definitions of the search done by `oneOf` (first matching candidate) and by
  `until` (first occurrence at or after the cursor). Lemmas characterise each
  of them completely.
- `SimpleRegex` (simple_regex.dfy): the class `SimpleRegex` with the fields
  `target` (a `const`), `idx`, `lastMatch`, `matches` and `error`. Its methods
  `Then`, `Maybe`, `OneOf`, `Until` and `BindVar` follow the JavaScript methods
  loop for loop. Each `modifies` only the fields the JavaScript method assigns.
  Each `ensures` gives the new value of every one of those fields in terms of
  the old state and the reference definitions. Each keeps `Valid()`, which is
  `idx <= |target|`, and `Progressed()`: the cursor does not move back and a
  raised error stays raised.
- `Examples` (examples.dfy): the chains from the repository's scripts and
  documentation, replayed against the class's contracts, with the outcome
  of each proved.

Two facts about the code shape the model:

- `then`, `oneOf` and `until` never test `error`, so later calls still run
  (simple-regex.js:55-159).
- A failed `then`, `oneOf` or `until` leaves `_lastMatch` as it was.

## Model

| member | source | states |
|---|---|---|
| `SimpleRegex.SimpleRegex.constructor` | simple-regex.js:2-11 | a new scanner holds the given target, has its cursor at 0, no last match (`null`), no captures and the error flag down |
| `Matching.MatchTargetWithPattern` | simple-regex.js:21-47 | answers `|pattern|` when the pattern occurs at the given offset and -1 otherwise, including when it would run past the end of the target; the empty pattern answers 0 at every offset |
| `Matching.PatternAtSlice` | simple-regex.js:21-47 | a non-empty pattern occurs at `i` exactly when `i + |pattern| <= |target|` and `target[i..i + |pattern|]` equals it; the empty pattern occurs everywhere |
| `SimpleRegex.SimpleRegex.Then` | simple-regex.js:55-67 | on a match at the cursor: the cursor advances by exactly `|pattern|`, the last match becomes the pattern, the error flag is unchanged; otherwise: the error flag is raised and cursor and last match are unchanged; captures untouched; cursor stays within the target and never decreases |
| `SimpleRegex.SimpleRegex.Maybe` | simple-regex.js:75-85 | on a match behaves as a successful `then`; on a miss the last match becomes the empty string and the cursor stays; the error flag is never written |
| `Matching.FirstMatching` | simple-regex.js:93-109 | the index it reports is that of a candidate that occurs at the offset |
| `Matching.FirstMatchingIsFirst` | simple-regex.js:93-109 | `FirstMatching` reports candidate `k` if and only if candidate `k` occurs and no earlier candidate does (first in argument order wins, even over a later longer match) |
| `Matching.FirstMatchingNone` | simple-regex.js:93-109 | `FirstMatching` reports nothing if and only if no candidate occurs (so always for an empty candidate list) |
| `SimpleRegex.SimpleRegex.OneOf` | simple-regex.js:93-109 | when `FirstMatching` picks candidate `k`: the cursor advances by `|patterns[k]|`, the last match becomes `patterns[k]`, the error flag is unchanged; when it picks none: the error flag is raised and cursor and last match are unchanged |
| `Matching.FirstOccurrence` | simple-regex.js:120-159 | an offset it reports is at or after the start offset and the pattern occurs there |
| `Matching.FirstOccurrenceIsFirst` | simple-regex.js:120-159 | `FirstOccurrence` from `from` reports `q` if and only if `q >= from`, the pattern occurs at `q` and at no offset in between: the smallest occurrence |
| `Matching.FirstOccurrenceNone` | simple-regex.js:120-159 | `FirstOccurrence` reports nothing if and only if the pattern occurs at no offset from the start offset on |
| `Matching.RunsOffEnd` | simple-regex.js:124-135 | once an attempt needs a character past the end of the target, the pattern occurs at no later offset, so giving up there with an error is correct |
| `SimpleRegex.SimpleRegex.Until` | simple-regex.js:120-159 | terminates; when the pattern occurs at or after the cursor, the cursor moves to the first such offset (the start of the occurrence, not past it), the last match becomes the text skipped over and the error flag is unchanged; otherwise the error flag is raised and cursor and last match are unchanged; an empty pattern succeeds at once with an empty last match |
| `SimpleRegex.SimpleRegex.BindVar` | simple-regex.js:167-170 | the captures become the old captures with the label bound to the current last match (replacing an earlier binding); no other label, and neither cursor, last match nor error flag, changes |
| `Examples.UntilStopsBeforePattern` | simple-regex.js:112-119 | `until(".com")` on "example.com/abc" leaves the cursor at 7 (the "." of ".com") with last match "example" and no error |
| `Examples.ProtocolScan` | main.js:80-86 | the example script's chain on "https://example.com:3000/test/index.php" ends with `Protocol` bound to "http", `domainName` bound to "://" and no error |
| `Examples.UrlScan` | test.js:5-10 | the commented-out URL chain of the test script on "ftp://example.com:3000/test/", without its `replaceWith` calls, binds `protocol` to "ftp", leaves "example" as the last match right after `until(".com")`, ends with the cursor at 18 and raises no error |
| `Examples.ErrorIsSticky` | simple-regex.js:55-67 | on "xyz" a failed `then("http")` raises the error flag, a capture taken then holds no value (`null`), and a later successful `then("x")` advances the cursor but leaves the flag raised |

## Left out

- The quantifier and character-class calls (`oneOrMany`, `letter`, `number`, `is`) and the replacement calls (`replaceWith`, `getReplacedString`). The scripts use them (test.js:8-29), but simple-regex.js does not define them. So `Examples.UrlScan` leaves out the `replaceWith`, `oneOrMany().number()` and later calls of that chain, and the date-string chain of test.js is not modelled.
- Method chaining (each JavaScript method returns `this`): here the calls are successive statements on one object.
- The default of `_matchTargetWithPattern`'s offset, which becomes 0 when omitted: every call site passes the cursor, so the offset is a required `nat`.
- The module wrapper (the `module.exports` function) and the `arguments` object: `oneOf` takes a `seq<seq<char>>`.
- `_targetStringLength`: it caches the target's length and the target never changes, so the model uses `|target|`.
- main.js's `RegexTools` class (main.js:1-74): it is an earlier copy of `then`, `maybe` and `bindVar` with an empty `until`. Its example chain is replayed against the contracts of `SimpleRegex` in `Examples.ProtocolScan`, with the outcome proved.
- Printing the results (`console.log` in main.js and test.js): this is output only.
- JavaScript strings are sequences of UTF-16 code units. Here they are sequences of Dafny `char`, so lengths and offsets agree only for text without surrogate pairs.
- Arguments that are not strings (for example a missing pattern, which makes the JavaScript throw on `.length`): Dafny's types rule them out.
- The `matches` dictionary is a Dafny `map`. JavaScript object keys with special meaning, such as `__proto__`, are not modelled.
