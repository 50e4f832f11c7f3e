# mu-selector-set, modelled in Dafny

mu-selector-set indexes CSS selectors so that a DOM element can be matched
against many of them quickly. This project models the core of the library and
proves what it does:

- **The classifier** (src/classifier.js) finds the *significant part* of a
  selector. It strips trailing white space. It then cuts off the *garbage*:
  everything from the leftmost position where a pseudo-class (a `:` and at
  least one more character) or an attribute test (a `[`, with the text ending
  in `]`) runs to the end with no line terminator in it. That position may lie
  in an earlier compound. Then, repeatedly, it peels the rightmost token (an
  optional `#` or `.` followed by name units) and cuts the garbage off the
  text in front of it. It returns the first `#` token peeled. If there is none, it returns the first `.` token. If there is none
  of those either, it returns the first token peeled, and `*` when nothing was
  peeled. Module `Classifier` holds the method `Classify`. That method keeps
  the source's loops and is proved equal to the recursive specification
  `Significant`. `ClassifierFacts` and `ClassifierCompound` prove what that
  specification guarantees.
- **The multimap** (src/MappedLists.js, and the identical src/IndexedSet.js)
  maps a key to the list of data added under it. The object's property names
  are `key + " "`. Each of the two classes holds its object as a Dafny `map`,
  with a ghost history of its `add` calls. Both are proved against the pure
  view `Buckets.Bucket`.
- **The subsets** (src/Subsets.js) are four. Each has a type test on
  significant parts, an extractor of the keys an element is looked up under,
  and a private multimap:
  - id;
  - class;
  - tag, which lower-cases its keys;
  - universal.
- **The selector set** (src/SelectorSet.js):
  - `add` cuts a selector list at the commas that are outside quotes. It
    trims each piece and classifies it. It files the piece as a fresh entry in
    the first subset whose type test accepts the significant part.
  - `matches` flattens its arguments one level. It then walks the elements,
    the subsets, the element keys and the candidates under each key, in that
    order. It keeps each candidate that is not returned yet and that the
    element matches.
  - The class `SelectorSet.SelectorSet` keeps the four subsets and a ghost
    list of the entries added so far. Its invariant ties every subset's
    multimap to the filing function `IndexSpec.Filed`.
  - `Matches` is proved to return `IndexSpec.Result`. Soundness, completeness,
    the absence of duplicates and the discovery order are proved about that
    function.

The JavaScript string built-ins the code relies on are written out in
`JsStrings`: the `\s` class, `trim`, and `toLowerCase` (ASCII letters only).
The same module gives the `.` of a regular expression. The cut of a selector
list at commas, and its inverse, are in `SelectorSplit`.

The model follows the code, including where the code behaves otherwise than
a reader of the library might expect:

- A class in the last compound beats the tag in front of it. `div.bar` gives
  `.bar`, and `p > div.bar` gives `.bar` (`ClassBeatsTag`, `DescendantClass`).
  The element's tag name does not win there.
- Nothing can be removed from the index. Entries carry no sequence number, and
  `matches` never re-sorts: it returns results in discovery order.
- An empty piece is not an error. For `a,,b`, or for a leading comma, the empty
  piece trims to `""`. It classifies to `*` and is filed in the universal
  subset.
- The cut has these edge cases:
  - `""` gives no piece at all;
  - `"a,"` gives only `a`;
  - `","` gives one empty piece.
- Leading white space changes nothing only when it lies below U+00C0. The
  regular expressions count U+3000 and the other wide spaces as name
  characters.
- The leftmost `:` starts the trailing garbage, even when an attribute test
  follows later: `a:hover [x]` gives `a` (`PseudoClassBeforeAttribute`), while
  `a [x]` gives `*` (`TrailingAttributeIsUniversal`).
- A pseudo-class in an earlier compound decides the result, since the
  garbage starts at its colon: `li:hover a` gives `li`, not `a`. Its entry is
  filed under the tag `li`, so `matches` never looks it up for an `a`
  element (`EarlierPseudoClassDecides`).
- The garbage strip does not honour escapes. An escaped `:` or `[` starts the
  garbage all the same, so `a\:b` gives `*` (`EscapedColonIsGarbage`).
- A key with a line terminator after its first character can pass no type
  test. Its entry is then filed nowhere (`SignificantRouted`, `Route`).

## Model

| member | source | states |
|---|---|---|
| Classifier.Classify | src/classifier.js:35-58 | the peel loop followed by the choice returns `Significant(selector)`; the loop ends because each turn peels a non-empty suffix |
| Classifier.Significant | src/classifier.js:35-58 | `classifier(selector)` as a function: the choice among the candidates; `Classify` is proved equal to it, and `ClassifierFacts` proves its shape |
| Classifier.Candidates | src/classifier.js:36-43 | the candidates pushed: the peel of the selector with its trailing white space and garbage stripped (`PeeledAreTokens`) |
| Classifier.Peel | src/classifier.js:39-43 | the peel loop as a recursion on a shorter prefix: the leftmost token suffix, then the peel of the text in front of it (`PeelStep`, `PeelDone`) |
| Classifier.Pick | src/classifier.js:44-57 | the choice among the candidates (`PickShape`, `IdCandidateWins`, `ClassCandidateWins`, `FirstCandidateOtherwise`) |
| Classifier.Choose | src/classifier.js:44-57 | the two index scans return `*` for no candidates, else the first `#` candidate, else the first `.` candidate, else the first candidate |
| Classifier.Find | src/classifier.js:49-55 | the index found is the first candidate that passes the sigil test, and `None` means that no candidate passes |
| Classifier.Leftmost | src/classifier.js:39-40 | the start of a `$`-anchored match lies in range, and the suffix there matches |
| Classifier.LeftmostBefore | src/classifier.js:39-40 | no suffix in front of the leftmost match matches: JavaScript takes the leftmost match |
| ClassifierFacts.LeftmostUnique | src/classifier.js:38-41 | a position that matches, with no match before it, is the leftmost match |
| ClassifierFacts.LeftmostShift | src/classifier.js:38-41 | a prefix where no match can start shifts the leftmost match by its length |
| Classifier.StripSpace | src/classifier.js:37 | `replace(re.ws, "")` returns a prefix of the selector |
| Classifier.StripGarbage | src/classifier.js:38 | `replace(re.garbage, "")` keeps the prefix in front of the leftmost garbage match (`StripGarbageSkipsPrefix`, `NoGarbageKept`) |
| Classifier.IsGarbage | src/classifier.js:16 | a string matched in full by `re.garbage`: a colon and at least one more character, or a bracket pair, with no line terminator (`AttributeDiscarded`, `PseudoClassDiscarded`) |
| Classifier.IsToken | src/classifier.js:19 | a string matched in full by `re.candidate`: an optional sigil and at least one unit (`UnitsChars`, `PlainIsUnits`) |
| Classifier.IsUnits | src/classifier.js:19 | a string matched in full by the units part of `re.candidate`: one or more units, each a name character or a backslash with the character after it, read from the left (`UnitsChars`, `PlainIsUnits`, `UnitsAppend`) |
| Classifier.IsSigil | src/classifier.js:19 | the class `[#\.]` of the optional sigil (`PeelSigilTail`, `TokenSigilTest`) |
| Classifier.UnitLength | src/classifier.js:19 | the length of the unit at the start: 1 for a name character, 2 for a backslash and any character but a line terminator, 0 otherwise |
| Classifier.IsNameChar | src/classifier.js:17-19 | the class `[\w\u00c0-\uFFFF\-]` |
| Classifier.SigilTest | src/classifier.js:17-18 | `re.id.test` and `re.cls.test`: the sigil followed by one unit (`TokenSigilTest`) |
| JsStrings.TrimEnd | src/classifier.js:15 | the prefix kept ends in a non-space, and only white space was cut off the end |
| JsStrings.IsSpace | src/classifier.js:15 | the class `\s` of JavaScript regular expressions, which `trim` and `split(/\s+/)` share (`TrimEnd`, `SplitWsNoSpace`) |
| JsStrings.IsLineTerminator | src/classifier.js:16 | the characters the `.` of a regular expression refuses (`AttributeOnlyIsUniversal`, `RouteByFirstChar`, `TokenRouted`) |
| Classifier.PeelStep | src/classifier.js:39-43 | one-step unfolding of `Peel` that `Classify` uses: a turn of the peel loop pushes the leftmost candidate, then goes on with the text in front of it, garbage stripped |
| Classifier.PeelDone | src/classifier.js:39 | one-step unfolding of `Peel` that `Classify` uses: the loop stops when no candidate matches, and nothing more is pushed |
| ClassifierFacts.SignificantShape | src/classifier.js:19-47 | the result is `*` exactly when nothing was peeled; any other result is a candidate, a token (an optional sigil and at least one unit) and a slice of the selector |
| ClassifierFacts.PickShape | src/classifier.js:44-57 | the choice among tokens is `*` only when there are none, and is one of them otherwise |
| ClassifierFacts.PeeledAreTokens | src/classifier.js:39-42 | every peeled candidate is a token and a slice of the text it was peeled from |
| ClassifierFacts.BlankIsUniversal | src/classifier.js:44-47 | empty and all-white-space selectors give `*` |
| ClassifierFacts.AttributeOnlyIsUniversal | src/classifier.js:16-47 | a selector that is only an attribute test gives `*` when the brackets hold no line terminator, since `.` refuses those (`[\nab:c]` gives `ab`) |
| ClassifierFacts.TrailingAttributeIsUniversal | src/classifier.js:16-47 | an attribute test gives `*` for the whole selector when the text in front of it has no `:` or `[` and ends in an unescaped boundary such as a space; when a pseudo-class comes first, the garbage strip starts at its colon instead (`PseudoClassBeforeAttribute`) |
| ClassifierFacts.TrailingSpaceIrrelevant | src/classifier.js:15-37 | appending white space does not change the result |
| ClassifierFacts.LeadingSpaceIrrelevant | src/classifier.js:19-39 | prefixing white space below U+00C0 does not change the result |
| ClassifierFacts.LastCompoundOnly | src/classifier.js:37-43 | text in front of an unescaped boundary character does not change the result when that text holds no `:` and no `[` |
| ClassifierFacts.PeelSkipsPrefix | src/classifier.js:39-43 | the peel loop never reaches into text in front of an unescaped boundary character when that text holds no `:` and no `[` |
| ClassifierFacts.StripGarbageSkipsPrefix | src/classifier.js:16-38 | a prefix with no `:` and no `[` is kept when the trailing garbage is stripped |
| ClassifierFacts.NoTokenAcrossBoundary | src/classifier.js:19 | no token starts at or before an unescaped boundary character |
| ClassifierFacts.UnitsChars | src/classifier.js:19 | every character of a run of units is a name character, a backslash or an escaped character |
| ClassifierFacts.TokenSigilTest | src/classifier.js:17-18 | on a token, `re.id.test` and `re.cls.test` only look at the first character |
| ClassifierFacts.CandidateSigilTests | src/classifier.js:49-55 | on the candidates of a selector, the id and class tests are tests of the first character |
| ClassifierFacts.IdCandidateWins | src/classifier.js:48-51 | the first `#` candidate is the result |
| ClassifierFacts.ClassCandidateWins | src/classifier.js:52-55 | with no `#` candidate, the first `.` candidate is the result |
| ClassifierFacts.FirstCandidateOtherwise | src/classifier.js:56-57 | with neither, the first candidate peeled is the result |
| ClassifierCompound.PlainIsUnits | src/classifier.js:19 | a plain ASCII name is a run of units |
| ClassifierCompound.UnitsAppend | src/classifier.js:19 | units followed by units are units |
| ClassifierCompound.NoGarbageKept | src/classifier.js:38 | text with no `:` and no `[` loses nothing to the garbage strip |
| ClassifierCompound.PeelUnits | src/classifier.js:39-43 | a single run of units is peeled as one candidate |
| ClassifierCompound.PeelSigilTail | src/classifier.js:39-43 | an unescaped sigil ends a token: the token from the sigil on is peeled first, then the text in front of it |
| ClassifierCompound.TagAlone | src/classifier.js:56-57 | a lone tag name is its own significant part |
| ClassifierCompound.ClassBeatsTag | src/classifier.js:53-55 | `tag.class` gives `.class` |
| ClassifierCompound.IdClassTagCandidates | src/classifier.js:39-43 | `tag#id.class` peels `.class`, then `#id`, then `tag` |
| ClassifierCompound.IdBeatsClassAndTag | src/classifier.js:48-51 | `tag#id.class` gives `#id` |
| ClassifierCompound.DescendantClass | src/classifier.js:39-55 | after a boundary such as ` > `, `tag.class` gives `.class` |
| ClassifierCompound.AttributeDiscarded | src/classifier.js:16-38 | a trailing attribute test is cut off before any token is peeled |
| ClassifierCompound.PseudoClassDiscarded | src/classifier.js:16-38 | a trailing pseudo-class is cut off before any token is peeled |
| ClassifierCompound.EscapeStaysInToken | src/classifier.js:17-19 | an escaped character other than a line terminator, `:` or `[` stays inside its token, a sigil or a space included; an escaped `:` or `[` still starts the garbage (`EscapedColonIsGarbage`) |
| ClassifierCompound.EscapedColonIsGarbage | src/classifier.js:16-38 | the garbage strip ignores escapes: `a\:b` loses `:b` and gives `*` |
| ClassifierCompound.TrailingBackslashIsUniversal | src/classifier.js:19-47 | a backslash with nothing after it starts no token: `a\` gives `*` |
| ClassifierCompound.PseudoClassBeforeAttribute | src/classifier.js:16-57 | the leftmost `:` starts the garbage even before a later attribute test: `tag:p [b]` gives `tag`, so `a:hover [x]` gives `a` |
| ClassifierCompound.EarlierPseudoClassDecides | src/classifier.js:16-57 | a pseudo-class in an earlier compound starts the garbage: `tag:p q` gives `tag` for plain names, so `li:hover a` gives `li` |
| JsStrings.Trim | src/SelectorSet.js:109 | `trim` leaves no white space at either end, and leaves a string with none there unchanged |
| JsStrings.TrimSlice | src/SelectorSet.js:109 | what `trim` returns is a slice of its argument with only white space around it |
| JsStrings.TrimEndAppendSpace | src/classifier.js:15 | white space appended to a string is what the trailing strip removes |
| JsStrings.TrimEndPrefix | src/classifier.js:15 | text in front of a non-space character is untouched by the trailing strip |
| JsStrings.LowerChar | src/Subsets.js:21 | `toLowerCase` on one character: the result is never an upper-case ASCII letter, only upper-case letters change, and each becomes the same letter in lower case |
| JsStrings.Lower | src/Subsets.js:21 | the lower-cased key has the same length, is lower-cased character by character, and holds no upper-case letter |
| JsStrings.LowerIdempotent | src/Subsets.js:21-25 | lower-casing twice is lower-casing once |
| Buckets.Bucket | src/MappedLists.js:18-28 | a bucket holds no more data than there were `add` calls |
| Buckets.Index | src/MappedLists.js:18-23 | the object `lists` after a history of `add` calls (`IndexLookup`, `BucketAdd`) |
| Buckets.Lookup | src/MappedLists.js:27 | `get` reads a missing property of `lists` as the empty list (`IndexLookup`, `BucketAbsent`) |
| Buckets.SpacedKeyInjective | src/MappedLists.js:19-26 | appending the space to keys keeps distinct keys distinct |
| Buckets.IndexLookup | src/MappedLists.js:18-28 | the object built by the `add` calls answers a lookup of the property `key + " "` with the bucket of `key`, and with `[]` when the property is missing |
| Buckets.BucketAdd | src/MappedLists.js:18-23 | `add(k, d)` appends `d` to the bucket of `k` and leaves every other bucket unchanged |
| Buckets.BucketAppend | src/MappedLists.js:18-23 | the buckets after later `add` calls extend the earlier buckets, in order |
| Buckets.BucketMembers | src/MappedLists.js:18-28 | a datum is in a bucket exactly when it was added under that key |
| Buckets.BucketAbsent | src/MappedLists.js:25-28 | a key never added has the empty list |
| MappedLists.MappedLists.constructor | src/MappedLists.js:14-16 | a new multimap has seen no `add` |
| MappedLists.MappedLists.Add | src/MappedLists.js:18-23 | the object keeps its invariant, one `add` is recorded, and the receiver is returned |
| MappedLists.MappedLists.Get | src/MappedLists.js:25-28 | `get(key)` returns the data added under `key`, oldest first |
| IndexedSet.IndexedSet.constructor | src/IndexedSet.js:14-16 | a new multimap has seen no `add` |
| IndexedSet.IndexedSet.Add | src/IndexedSet.js:18-23 | the object keeps its invariant, one `add` is recorded, and the receiver is returned |
| IndexedSet.IndexedSet.Get | src/IndexedSet.js:25-28 | `get(key)` returns the data added under `key`, oldest first |
| IndexedSet.KeepsDuplicates | src/IndexedSet.js:18-23 | despite its name the set keeps a datum added twice under one key twice |
| Subsets.Route | src/SelectorSet.js:111-117 | the index found is the first subset whose type test accepts the key, and `None` means that no test accepts it |
| Subsets.IsIdSelector | src/Subsets.js:36 | `/^#.+$/` (`TypeTestsDisjoint`, `RouteByFirstChar`) |
| Subsets.IsClassSelector | src/Subsets.js:46 | `/^\..+$/` (`TypeTestsDisjoint`, `RouteByFirstChar`) |
| Subsets.IsTagSelector | src/Subsets.js:63 | `/^[^\*\.#].*$/` (`TypeTestsDisjoint`, `RouteByFirstChar`) |
| Subsets.IsUniversalSelector | src/Subsets.js:74 | `/^\*$/` (`TypeTestsDisjoint`, `RouteByFirstChar`) |
| Subsets.IsOfType | src/Subsets.js:16-18 | the type test of each kind of subset; no key passes two (`TypeTestsDisjoint`) |
| Subsets.TypeTestsDisjoint | src/Subsets.js:36-74 | no key passes two type tests |
| Subsets.RouteByFirstChar | src/Subsets.js:36-74 | with no line terminator after the first character, the first character decides the subset, and only a lone `#` or `.` or a `*` with more after it goes nowhere |
| Subsets.SpaceFrom | src/Subsets.js:50 | the first white-space character at or after a position |
| Subsets.NonSpaceFrom | src/Subsets.js:50 | the first non-white-space character at or after a position |
| Subsets.SplitWs | src/Subsets.js:50 | `split(/\s+/)` yields at least one field |
| Subsets.SplitWsNoSpace | src/Subsets.js:50-52 | no field of `split(/\s+/)` holds white space |
| Subsets.SplitJoin | src/Subsets.js:50-52 | splitting non-empty space-free words joined by single spaces gives the words back |
| Subsets.ElementKeys | src/Subsets.js:37-77 | the extractor of each kind of subset: `#` and the id when it is not empty, `.` and each class field, the node name, and `*` (`ClassKeysOfWords`, `IndexSpec.KeyedAt`) |
| Subsets.ClassKeysOfWords | src/Subsets.js:47-56 | an element whose class attribute, plain or SVG `baseVal`, lists some words is looked up under `.` followed by each of them, in order (`Dotted` builds that list) |
| Subsets.NormCaseInsensitive | src/Subsets.js:21-25 | the tag subset stores and looks up keys that differ in case under one key, and normalising twice changes nothing |
| Subsets.Norm | src/Subsets.js:20-26 | the key a subset stores and looks up: lower-cased when the subset is case-insensitive (`NormCaseInsensitive`) |
| Subsets.Subset.constructor | src/Subsets.js:14-27 | a new subset has its kind, its case flag and an empty fresh multimap |
| Subsets.Subset.IsOfTypeOf | src/Subsets.js:16-18 | `isOfType` is the type test of the subset's kind |
| Subsets.Subset.ExtractElementKeys | src/Subsets.js:19 | `extractElementKeys` is the extractor of the subset's kind |
| Subsets.Subset.Add | src/Subsets.js:20-23 | the subset adds the data under the key, lower-cased when case-insensitive, and returns the receiver |
| Subsets.Subset.Get | src/Subsets.js:24-26 | the subset returns the bucket of the key, lower-cased when case-insensitive |
| Subsets.MakeSubsets | src/Subsets.js:29-83 | the factory returns id, class, tag and universal subsets in that order, only the tag one case-insensitive, each with its own empty multimap |
| SelectorSplit.IsQuote | src/SelectorSet.js:23 | the quote characters of `IGNORE_BOUNDARIES`, `'` and `"` (`Step`) |
| SelectorSplit.Step | src/SelectorSet.js:88-95 | one turn of the quote flag: the open quote closes on its own character, and a quote opens only when none is open (`ScanAppend`) |
| SelectorSplit.Scan | src/SelectorSet.js:84-97 | the quote flag after reading a string (`ScanAppend`, `AfterCut`) |
| SelectorSplit.FlagAfter | src/SelectorSet.js:82-97 | the quote flag at a position of the selector list, starting from `false` (`AfterCut`, `ScanAppend`) |
| SelectorSplit.IsCut | src/SelectorSet.js:84-87 | the stop test of the inner loop: a `,` read while no quote is open (`CutFrom`, `PiecesHaveNoCut`) |
| SelectorSplit.Pieces | src/SelectorSet.js:83-101 | the pieces `add` hands to `_add` (`JoinPieces`, `PiecesJoin`, `PiecesHaveNoCut`) |
| SelectorSplit.CutFrom | src/SelectorSet.js:84-97 | the inner loop stops at the first comma outside quotes, or at the end |
| SelectorSplit.ScanAppend | src/SelectorSet.js:88-95 | reading two strings in a row moves the quote flag as reading one, then the other |
| SelectorSplit.AfterCut | src/SelectorSet.js:100-101 | after a cut the quote flag starts afresh |
| SelectorSplit.CutShift | src/SelectorSet.js:100-101 | the cuts after the first one are the cuts of what follows it |
| SelectorSplit.JoinPieces | src/SelectorSet.js:81-101 | joining the pieces with `,` gives the selector list back, without a final cut |
| SelectorSplit.PiecesHaveNoCut | src/SelectorSet.js:84-97 | no piece holds a comma outside quotes |
| SelectorSplit.PiecesJoin | src/SelectorSet.js:83-101 | cutting undoes joining for pieces that hold no cut, close their quotes and end in a non-empty piece |
| SelectorSplit.CutAfterPiece | src/SelectorSet.js:84-98 | a delimiter after a quote-balanced piece with no cut is the first cut |
| IndexSpec.Entry.constructor | src/SelectorSet.js:108-110 | an entry is a fresh object holding the trimmed selector and the data |
| IndexSpec.PairMembers | src/SelectorSet.js:138-140 | the visits made for the candidates of one key (`Pair`) are exactly the element paired with each candidate |
| IndexSpec.TokenRouted | src/Subsets.js:36-74 | `*` and every token without a line terminator after the first character pass a type test |
| IndexSpec.SignificantRouted | src/SelectorSet.js:110-117 | such a significant part passes exactly one type test, the one of the subset `_add` picks |
| IndexSpec.FiledAppend | src/SelectorSet.js:111-117 | one-step unfolding of `Filed` that `File` uses: filing one more entry adds it to its home subset alone |
| IndexSpec.Home | src/SelectorSet.js:110-117 | the subset `_add` files an entry in: the first whose type test accepts its significant part, if any (`SignificantRouted`, `UnfiledNeverReturned`) |
| IndexSpec.StoredKey | src/Subsets.js:20-22 | the key a subset files an entry under: its significant part, lower-cased in the tag subset (`FiledMembers`) |
| IndexSpec.Filed | src/SelectorSet.js:106-117 | the `add` calls each subset's multimap has seen, oldest first, after a list of entries went through `_add` (`FiledMembers`, `FiledOnce`, `FiledAppend`) |
| IndexSpec.FiledMembers | src/SelectorSet.js:111-117 | a subset holds exactly the entries whose home it is, each under its stored key |
| IndexSpec.FiledOnce | src/SelectorSet.js:113-115 | an entry is stored in one subset under one key, never twice |
| IndexSpec.BucketOfFiled | src/SelectorSet.js:138 | a key of a subset finds exactly the entries filed there under it |
| IndexSpec.Stored | src/Subsets.js:24-26 | `subset.get(key)`: the bucket of the normalised key in what the subset was filed (`StoredMembers`, `BucketOfFiled`) |
| IndexSpec.StoredMembers | src/Subsets.js:24-26 | `subset.get(key)` finds the entries filed under the normalised key |
| IndexSpec.KeyLookup | src/SelectorSet.js:137-140 | the candidates of one element key, in bucket order, each with the element (`KeyLookupMembers`) |
| IndexSpec.KeyVisits | src/SelectorSet.js:136-145 | the candidates met in one subset, key after key in extraction order (`KeyVisitsMembers`, `KeyVisitsFound`) |
| IndexSpec.SubsetLookup | src/SelectorSet.js:134-145 | the candidates met in subset `i` under the keys it extracts from the element (`SubsetLookupFound`) |
| IndexSpec.CandidatesOf | src/SelectorSet.js:133-146 | the candidates met for one element, the four subsets in order (`ElementVisitsFound`, `SubsetsFound`) |
| IndexSpec.ElementVisits | src/SelectorSet.js:132-146 | `CandidatesOf` as a function of the element, for the loop over the elements (`ElementVisitsFound`) |
| IndexSpec.Visits | src/SelectorSet.js:131-147 | every candidate `matches` meets, element after element, in loop order (`VisitsFound`, `VisitsAppend`) |
| IndexSpec.KeyVisitsFound | src/SelectorSet.js:136-145 | the candidates met in one subset are the entries filed there under one of the element's keys |
| IndexSpec.ElementVisitsFound | src/SelectorSet.js:133-146 | the candidates met for one element are the entries filed under one of its keys, in their own subset |
| IndexSpec.VisitsFound | src/SelectorSet.js:131-147 | the visits of `matches` pair a given element with an entry filed under one of its keys |
| IndexSpec.Collect | src/SelectorSet.js:139-144 | the `res` built over a list of visits, each pushed when new and matched (`CollectMembers`, `CollectNoDuplicates`, `CollectPrefix`) |
| IndexSpec.CollectMembers | src/SelectorSet.js:139-144 | an entry ends up in `res` exactly when it was there or was met with an element it matches |
| IndexSpec.CollectNoDuplicates | src/SelectorSet.js:141-143 | the `indexOf` test keeps `res` free of duplicates |
| IndexSpec.CollectAppend | src/SelectorSet.js:131-147 | collecting over two batches of visits is collecting over both |
| IndexSpec.CollectPrefix | src/SelectorSet.js:143 | `res` only grows at its end |
| IndexSpec.Result | src/SelectorSet.js:126-149 | what `matches` returns: `Collect` over the visits of the flattened arguments (`ResultMembers`, `ResultNoDuplicates`, `ResultAppend`) |
| IndexSpec.ResultNoDuplicates | src/SelectorSet.js:141 | `matches` never returns an entry twice |
| IndexSpec.ResultMembers | src/SelectorSet.js:131-146 | an entry is returned exactly when it was added, was filed, and matches an element looked up under its key there |
| IndexSpec.UnfiledNeverReturned | src/SelectorSet.js:111-117 | an entry filed in no subset is never returned |
| IndexSpec.NoElementsNoResult | src/SelectorSet.js:126-149 | `matches()` returns `[]` |
| IndexSpec.SameElements | src/SelectorSet.js:129-130 | `matches` depends on its arguments only through their flattening |
| IndexSpec.FlattenForms | src/SelectorSet.js:129-130 | `matches(a, b)`, `matches([a, b])` and `matches([a], [b])` return the same list |
| IndexSpec.Flatten | src/SelectorSet.js:129-130 | `Array.prototype.concat.apply([], els)`: each element argument as itself and each array argument as its items (`FlattenAppend`, `FlattenForms`) |
| IndexSpec.FlattenAppend | src/SelectorSet.js:130 | flattening distributes over the argument list |
| IndexSpec.ResultAppend | src/SelectorSet.js:131-148 | entries found for earlier elements come first, and the later elements only append |
| SelectorSet.SelectorSet.constructor | src/SelectorSet.js:42-44 | a new set has four empty subsets and no entries |
| SelectorSet.SelectorSet.Valid | src/SelectorSet.js:106-117 | the invariant: the four subsets of the factory, each multimap holding what `Filed` says of the entries, and no entry added twice |
| SelectorSet.SelectorSet.Add | src/SelectorSet.js:75-104 | `add` appends one fresh entry per piece of the list, in order, holding the trimmed piece and the data and filed under the significant part of the trimmed piece; the entries stay pairwise distinct, also among those of one call, so `add("a, a")` stores two entries; it keeps the invariant and returns the receiver |
| SelectorSet.SelectorSet.ScanPiece | src/SelectorSet.js:84-97 | the inner loop stops at the first comma outside quotes or at the end, with no quote open at a cut |
| SelectorSet.PieceStep | src/SelectorSet.js:98-101 | `substr(from, len)` is the first piece of what is left, and what lies past the cut is left for the next turn |
| SelectorSet.SelectorSet.AddPiece | src/SelectorSet.js:106-118 | `_add` trims the piece and makes one fresh entry of it with the data, keyed by the significant part of the trimmed piece and filed by that key |
| SelectorSet.AddedPieceMatched | src/SelectorSet.js:106-146 | an added piece is returned by `matches` exactly when its significant part passes a type test and some element matches the trimmed piece and is looked up under that key |
| SelectorSet.SelectorSet.Insert | src/SelectorSet.js:110-117 | the entry holds the selector and the data, its key is `Significant(selector)`, and it is filed under that key |
| SelectorSet.SelectorSet.File | src/SelectorSet.js:111-117 | the entry is added to the first subset whose test accepts its key, or nowhere, and every subset still holds what `Filed` says |
| SelectorSet.SelectorSet.Matches | src/SelectorSet.js:126-149 | `matches` returns `Result` and changes nothing |
| SelectorSet.SelectorSet.MatchElement | src/SelectorSet.js:132-146 | the loop over the subsets for one element collects over `CandidatesOf` |
| SelectorSet.SelectorSet.MatchKeys | src/SelectorSet.js:136-145 | the loop over the element keys of one subset collects over `KeyVisits` |
| SelectorSet.SelectorSet.MatchCandidates | src/SelectorSet.js:139-144 | the loop over the candidates of one key pushes each one that is new and matches |

## Left out

- src/matchesSelector.js is not part of this model. In the browser it looks
  up a native DOM primitive. Here it is the parameter `ms` of `Matches`, and
  so is any override of `matchesSelector` on the prototype or on an instance.
- The module wrappers (AMD and CommonJS, main.js) are module wiring only.
- The lower-case src/selectorSet.js is an unused legacy variant. It is not
  part of this model.
- `add` takes any number of data arguments. The model takes one value of type
  `D`, which can be a sequence.
- `matches` flattens one level only. A nested array would stay an element of
  the flattened list. `Arg` has no constructor for such an element.
- DOM elements are the three properties the extractors read: `id`,
  `className` and `nodeName`. An id that is absent is `""`.
- A `className` of `null` makes `'baseVal' in classes` throw. The model has no
  such value.
- `key += " "` on a non-string key coerces the key. Keys are strings here.
- Subsets.Subset.Add and Subsets.Subset.Get: only ASCII letters are
  lower-cased, not the full Unicode case mapping of `toLowerCase`.
- JsStrings.Lower: the ASCII case mapping only, as above.
- Characters are Unicode scalar values, while JavaScript strings are UTF-16
  code units. Every character class in the model lies in the Basic
  Multilingual Plane, and both halves of a surrogate pair lie above U+00C0.
  So a name character is accepted alike in both readings.
- `get` and `matches` return the multimap's own arrays, and each entry is a
  mutable array. Buckets and results are values here, and entries are
  immutable objects. Only entry identity is kept, because the `indexOf` test
  needs it. What a caller could do by mutating a returned array is not
  modelled.
- Entry identity is by reference. The significant part of an entry is kept
  as a ghost field for the proofs, and the code does not store it.
- Nothing can be removed, and no sequence number or sort exists in the code.
  So the model has none either.
