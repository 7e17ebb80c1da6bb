# Meal-quality scorer: a verified model of its core

This project models the core of a meal-quality scorer, which comes as two C++ console
programs (`main.cpp`, `cpp/src/main.cpp`) and two browser scripts (`app.js`,
`web/js/app.js`). The model covers:

- **Nutrient scoring** (`Food.h`, and its copies in both scripts). Kilocalories are
  converted to kilojoules. Six inclusive threshold ladders are copied verbatim. The score is
  `clamp(10 - (negative - positive), 1, 10)`, and five feedback bands are derived from it.
  The browser copy reads a missing or `NaN` field as 0.
- **The 27-slot prefix tree** (`Trie.h`). It is a class over an arena of nodes, with the
  insert loop, exact and prefix search, the recursive pre-order collection, the
  substring search and the node count.
- **The chained hash table** (`HashMap.h`). It has 100000 buckets and the djb2 hash over
  the case-folded characters of a name, kept to a 64-bit word. Names are taken as
  sequences of characters, while the C++ code walks the bytes of a `std::string`; the two
  agree on ASCII names (see "Left out"). Insertion appends to one bucket; there
  are the three searches and the bucket statistics.
- **The CSV reader** (`cpp/include/CSVReader.h`). This covers the quote-toggling line
  splitter, `toDouble` and the row filter of `loadFromCSV`. It also covers the two browser
  `parseCSV` row filters.
- **The `app.js` indexes.** These are a `Map` from lower-cased name to foods, kept in
  first-insertion key order, and an object trie keyed on whole characters whose children
  are listed in JavaScript's `for…in` order (digit keys first, ascending, then the others in
  creation order). The model
  includes the exact, prefix and contains dispatch with its cap of 20.
- **The web front end's searches.** These are linear first-N scans, capped at 50 and 30.
- **Meal state in all four front ends.** This covers serving scaling, field-wise totals,
  adding, clearing and removing entries. It also covers the saved-meal history of
  `cpp/src/main.cpp`, including its stale-total flag (an empty total name).

Nutrient values are `real`. Number parsing (`std::stod`, `parseFloat`, unary `+`) is a
function parameter returning `None` on failure. Console input, the browser's text fields
and `confirm` answers, the fetched CSV text and the clock value used as a saved meal's id
are all method parameters.

Modules:

| module | contents |
|---|---|
| `Wrappers` | `Option` |
| `Text` | ASCII case folding, prefix and substring tests, JS `trim`, `split` and `join` |
| `Nutrition` | `Food`, the ladders, `Score`, verdicts and the browser's `||`-defaulting score |
| `Selection` | order-preserving filters and the key-prefix views shared by both tries |
| `PrefixTree` | `Trie.h` |
| `ChainedHash` | `HashMap.h` |
| `Csv` | `cpp/include/CSVReader.h` and the two browser `parseCSV` functions |
| `JsIndex` | the `app.js` `Map` and object trie, and their searches |
| `Meal` | serving arithmetic, totals, and the two console programs' meal state |
| `Browser` | the meal and search state of `app.js` and `web/js/app.js` |

## Model

| member | source | states |
|---|---|---|
| Nutrition.RankBound | Food.h:45-125 | a ladder with n thresholds never gives more than n points |
| Nutrition.RankMonotone | Food.h:50-122 | the first-match reading of a ladder is monotone: a larger value never gets fewer points |
| Nutrition.RankInterval | Food.h:50-60 | a value gets exactly k points iff it is above threshold k-1 and at most threshold k, so every threshold is an inclusive upper bound |
| Nutrition.OnThreshold | Food.h:76-77 | a value equal to the k-th threshold of an ascending ladder gets k points, the lower bucket |
| Nutrition.LaddersAscending | Food.h:49-122 | each of the six verbatim threshold tables is strictly ascending |
| Nutrition.EnergyIsRank | Food.h:49-60 | the written-out energy chain equals the first-match rank on the energy table |
| Nutrition.SatFatIsRank | Food.h:62-73 | the saturated-fat chain equals the rank on its table |
| Nutrition.SugarIsRank | Food.h:75-86 | the sugar chain (…27, 31, 36, 40, 45) equals the rank on its table |
| Nutrition.SodiumIsRank | Food.h:88-99 | the sodium chain equals the rank on its table |
| Nutrition.ProteinIsRank | Food.h:108-114 | the protein chain equals the rank on its table |
| Nutrition.FiberIsRank | Food.h:116-122 | the fiber chain (0.9, 1.9, 2.8, 3.7, 4.7) equals the rank on its table |
| Nutrition.ThresholdsInclusive | Food.h:50-122 | on every ladder, a value exactly on the k-th threshold gets k points (sugar 4.5 g and sodium 90 mg give 0) |
| Nutrition.NegativePoints | Food.h:45-102 | the negative points lie in 0..40 |
| Nutrition.PositivePoints | Food.h:105-125 | the positive points lie in 0..10 |
| Nutrition.Score | Food.h:32-42 | the score lies in 1..10 for every food, whatever the signs of its fields; it is `10 - (neg - pos)` when that is in range, and 1 or 10 at the clamps |
| Nutrition.ScoreMonotone | Food.h:37-39 | more protein or fiber never lowers the score; more energy, saturated fat, sugar or sodium never raises it |
| Nutrition.EnergyClassifiedInKilojoules | Food.h:27-29 | energy is ranked on `kcal * 4.184`: 80 kcal gives 0 points and 81 kcal gives 1 |
| Nutrition.EmptyFoodScoresTen | Food.h:19-20 | the all-zero default food has no negative or positive points and scores 10 |
| Nutrition.VerdictOf | Food.h:128-135 | exactly one of five verdicts is chosen, each iff the score is in its band (≥9, 7..8, 5..6, 3..4, <3) |
| Nutrition.OrZero | web/js/app.js:336-345 | `x \|\| 0` keeps a number and reads a missing or `NaN` value as 0 |
| Nutrition.WebNegPoints | web/js/app.js:334-342 | the browser's negative points lie in 0..40 and equal the `Food.h` points of the food with missing fields read as 0 |
| Nutrition.WebPosPoints | web/js/app.js:343-349 | the browser's positive points lie in 0..10 and equal the `Food.h` points of the normalised food |
| Nutrition.WebScore | web/js/app.js:330-333 | the browser score lies in 1..10 and equals the `Food.h` score of the normalised food |
| Nutrition.WebScoreAgrees | web/js/app.js:330-349 | on a food whose fields are all numbers, the browser score is the native score |
| Nutrition.WebScoreOfMissing | web/js/app.js:330-349 | a row with every nutrient missing scores 10 |
| Text.LowerChar | HashMap.h:25-29 | ASCII `tolower`: an upper-case letter moves up by 32, every other character is kept, and the result is never upper-case |
| Text.ToLower | HashMap.h:25-30 | lower-casing keeps the length and folds each character on its own |
| Text.ToLowerIdempotent | HashMap.h:25-30 | folding twice is folding once |
| Text.ToLowerAppend | HashMap.h:25-30 | folding distributes over concatenation |
| Text.StartsWithContains | HashMap.h:60 | a name that starts with a prefix contains it |
| Text.TrimStartFacts | web/js/app.js:95 | trimming the front leaves a suffix that starts with a non-space and removes only spaces |
| Text.TrimEndFacts | web/js/app.js:95 | trimming the back leaves a prefix that ends with a non-space and removes only spaces |
| Text.Trim | web/js/app.js:95 | a trimmed string is no longer than its input and neither starts nor ends with white space as JS `trim` defines it: the ASCII blanks, the no-break space, U+1680, U+2000–U+200A, the line and paragraph separators, U+202F, U+205F, U+3000 and the byte-order mark |
| Text.TrimInside | web/js/app.js:95 | the trimmed string occurs inside the input |
| Text.TrimFixed | web/js/app.js:95 | a string without white space at either end is its own trim, so trimming is idempotent |
| Text.TrimBlank | web/js/app.js:95 | a string of white space trims to empty, so `filter(Boolean)` drops it |
| Text.Split | app.js:90 | `split` always gives at least one piece |
| Text.SplitJoin | app.js:90 | `split` gives one piece more than there are separators, no piece holds the separator, and `join` restores the text |
| Text.SplitCount | app.js:90 | the number of pieces is 1 + the number of separators |
| Text.SplitPieces | app.js:90 | no piece contains the separator |
| Text.SplitJoined | app.js:90 | joining the pieces with the separator restores the text |
| Selection.Select | HashMap.h:69-82 | an order-preserving filter is never longer than its input |
| Selection.SelectCount | HashMap.h:69-82 | a food occurs in the filtered list as often as in the input if it passes the test, and not at all otherwise |
| Selection.SelectMembers | HashMap.h:69-82 | a food is in the filtered list iff it is in the input and passes the test |
| Selection.SelectPermutation | Trie.h:127-143 | filtering a permutation gives a permutation of the filtered list |
| Selection.SelectAppend | HashMap.h:57-64 | filtering a concatenation concatenates the filtered parts |
| Selection.SelectNarrow | app.js:247-250 | filtering by a looser test and then a tighter one is filtering by the tighter one |
| Selection.SelectSplit | Trie.h:47-61 | filtering by one of two disjoint tests gives, as a bag, the union of the two filters |
| Selection.SelectAll | Trie.h:133 | a test every food passes keeps the whole list |
| Selection.WithKey | Trie.h:98-99 | the foods filed under one key are among the input |
| Selection.Under | Trie.h:105-122 | the foods under one key prefix are among the input |
| Selection.WithKeyMembers | Trie.h:86-102 | a food is filed under key p iff it was inserted and its name's key is p |
| Selection.WithKeyUnder | Trie.h:47-53 | a food filed at a node is among that node's subtree |
| Selection.NoneUnderDeeper | Trie.h:90-94 | if no inserted key extends p, then no key extends any extension of p, and exact and prefix lookups there are empty |
| Selection.NoneUnderAppend | Trie.h:69-83 | after one more insertion, no key extends p iff none did before and the new key does not |
| Selection.BelowNone | Trie.h:56-60 | collecting from no child slots collects nothing |
| Selection.BelowChild | Trie.h:56-60 | a key lies below child x of node p iff it extends p + [x] |
| Selection.BelowAdd | Trie.h:56-60 | visiting one more child slot x adds, as a bag, exactly the foods under p + [x] |
| Selection.UnderSplit | Trie.h:47-61 | the foods under p are, as a bag, the foods at p plus the foods below p's children |
| Selection.KeepContaining | Trie.h:135-140 | the loop keeps exactly the foods whose folded name contains the folded term, in input order |
| Selection.KeepStartingWith | HashMap.h:57-64 | the loop keeps exactly the foods whose folded name starts with the folded prefix, in input order |
| PrefixTree.CharToIndex | Trie.h:25-31 | the slot is below 27; a letter of either case maps to its 0-based position in the alphabet, and every other character maps to 26 |
| PrefixTree.Path | Trie.h:73-79 | a name's path has one slot per character, each below 27 |
| PrefixTree.CharToIndexSame | Trie.h:25-31 | two characters share a slot iff they are the same letter up to case, or both are non-letters |
| PrefixTree.PathsAgree | Trie.h:73-79 | two names have the same path iff they have equal length and agree slot by slot |
| PrefixTree.PathFoldsCase | Trie.h:70 | lower-casing a name first does not change its path |
| PrefixTree.PathOfFoldedEqual | Trie.h:86-91 | names equal up to case have the same path |
| PrefixTree.NonLettersCollide | Trie.h:25-31 | "a-b" and "A b" have the same path, so exact and prefix search cannot tell them apart |
| PrefixTree.ExactMatches | Trie.h:86-102 | exact search for n matches a food iff its name has n's length and agrees with n slot by slot; every food equal to n up to case matches |
| PrefixTree.NewNode | Trie.h:18-22 | a new node has 27 empty slots, no foods and is not an end of word |
| PrefixTree.AddChild | Trie.h:75-77 | creating a child adds exactly one node to the arena |
| PrefixTree.Reach | Trie.h:73-79 | if a stored node's path extends node i's path by slot c, then node i has a child in slot c, and it is that node when the paths differ by c alone |
| PrefixTree.AddChildKeeps | Trie.h:75-77 | creating a missing child keeps the tree invariants: paths, parent links, and the foods filed under each node |
| PrefixTree.AddChildShaped | Trie.h:75-77 | the new node has the parent's path plus its slot, and every node keeps its own |
| PrefixTree.AddChildLinked | Trie.h:75-77 | every node except the root keeps a parent whose slot leads to it, and paths stay distinct |
| PrefixTree.AddChildFiled | Trie.h:75-77 | each node's foods are still exactly the inserted foods with its path, and an empty slot still means no inserted key passes through it |
| PrefixTree.FileAt | Trie.h:81-82 | filing a food changes no node count |
| PrefixTree.FileFood | Trie.h:81-82 | appending a food at the node of its path files it there and keeps all invariants, so duplicates of a name stay in insertion order |
| PrefixTree.Missing | Trie.h:90-94 | a missing child slot means no inserted food's path runs through it, so exact and prefix lookups below it are empty |
| PrefixTree.SubtreeHolds | Trie.h:47-61 | the pre-order collection from a node is, as a bag, every inserted food whose path extends the node's path |
| PrefixTree.ChildFoodsHold | Trie.h:56-60 | collecting children 0..c-1 gives, as a bag, the foods below those slots |
| PrefixTree.SubtreeKeys | Trie.h:47-61 | every collected food was inserted and its path extends the node's path |
| PrefixTree.UnderMembers | Trie.h:105-122 | a food under a key prefix was inserted and its path extends the prefix |
| PrefixTree.SubtreeOrdered | Trie.h:47-61 | the collection is in slot order: a node's own foods come before its descendants', and children are visited in slots 0..26 |
| PrefixTree.ChildFoodsOrdered | Trie.h:56-60 | the foods from children 0..c-1 are in slot order and lie below those slots only |
| PrefixTree.SelectOrdered | Trie.h:135-140 | filtering a slot-ordered list keeps it in slot order |
| PrefixTree.UnderEverything | Trie.h:133 | every food lies under the root |
| PrefixTree.SelectFromTree | Trie.h:127-143 | filtering the whole tree's collection gives, as a bag, the filter of the inserted foods, in slot order |
| PrefixTree.CountBelow | Trie.h:146-156 | visiting one more child slot adds exactly that child's descendants, disjoint from those counted so far |
| PrefixTree.SizeBelow | Trie.h:150-154 | the same step as `CountBelow`, stated on the number of nodes |
| PrefixTree.CountSelf | Trie.h:146-156 | a node's descendants are itself plus those below its slots, and the root's descendants are all nodes |
| PrefixTree.CollectAllFoods | Trie.h:47-61 | the recursion appends exactly the pre-order collection of the node's subtree to the results |
| PrefixTree.CountNodes | Trie.h:146-156 | the recursion counts the node's descendants, at least 1, and all nodes from the root |
| PrefixTree.Trie.constructor | Trie.h:64-66 | a new trie is one empty root and holds no foods |
| PrefixTree.Trie.Insert | Trie.h:69-83 | insertion appends the food to the inserted foods, keeps the invariants, and adds at most one node per character of the name |
| PrefixTree.Trie.ChildOrNew | Trie.h:74-78 | the step reaches the child with the current path plus the slot, creating at most one node |
| PrefixTree.Trie.SearchExact | Trie.h:86-102 | the result is exactly the inserted foods whose path equals the query's path, in insertion order; it is empty on a missing child or a node without foods |
| PrefixTree.Trie.SearchPrefix | Trie.h:105-122 | the result is, as a bag, every inserted food whose path extends the query's path; the foods at the prefix node come first, and the rest follow in slot order |
| PrefixTree.Trie.SearchContains | Trie.h:127-143 | the result is the whole-tree collection filtered by folded substring: as a bag, exactly the inserted foods whose folded name contains the folded term, in slot order rather than insertion order |
| PrefixTree.Trie.TotalNodes | Trie.h:146-156 | the node count is between 1 and 1 + the total length of the inserted names |
| ChainedHash.Djb2 | HashMap.h:17-21 | the hash stays below 2^64 |
| ChainedHash.Bucket | HashMap.h:13-22 | the bucket index lies in 0..99999 |
| ChainedHash.HashFoldsCase | HashMap.h:19-21 | the hash of a lower-cased name is the hash of the name |
| ChainedHash.SameBucket | HashMap.h:35-43 | names equal after case folding land in the same bucket |
| ChainedHash.HashFunction | HashMap.h:17-23 | the loop computes the djb2 hash modulo the table size, an index below 100000 |
| ChainedHash.FlattenLength | HashMap.h:90-99 | the buckets hold as many foods as their sizes add up to, and no more buckets are non-empty than there are foods |
| ChainedHash.FlattenBuckets | HashMap.h:57-64 | scanning buckets 0..n-1 gives, as a bag, the inserted foods that hash below n |
| ChainedHash.CountBuckets | HashMap.h:86-99 | the counters give the total number of items, the number of non-empty buckets (at most the total), and the longest chain (attained, at most the total) |
| ChainedHash.HashMap.Contents | HashMap.h:35-38 | the buckets together hold, as a bag, exactly the inserted foods, and as many items as inserts |
| ChainedHash.HashMap.constructor | HashMap.h:33 | a new table has 100000 empty buckets |
| ChainedHash.HashMap.Insert | HashMap.h:35-38 | insertion appends the food to its name's bucket only |
| ChainedHash.HashMap.SearchExact | HashMap.h:40-51 | the result is exactly the inserted foods whose folded name equals the folded query, in insertion order; no colliding food with a different name is returned |
| ChainedHash.HashMap.SearchPrefix | HashMap.h:53-66 | the result is the foods whose folded name starts with the folded prefix, in bucket order and then insertion order; as a bag, exactly those inserted |
| ChainedHash.HashMap.SearchContains | HashMap.h:69-82 | the same for folded substring |
| ChainedHash.HashMap.Stats | HashMap.h:85-99 | the counters are the number of inserts, the non-empty buckets and the longest chain, each bounded by the total |
| Csv.ParseLine | cpp/include/CSVReader.h:13-33 | the quote-toggling loop computes the field list, which has at least one field |
| Csv.ParseLineFacts | cpp/include/CSVReader.h:18-30 | there is one field more than there are commas outside quotes, no field holds a quote, and joining the fields with commas gives the line with its quotes removed |
| Csv.ScanQuoted | cpp/include/CSVReader.h:21-22 | after a prefix of the line, the loop is inside quotes iff the prefix has an odd number of quotes |
| Csv.FieldCount | cpp/include/CSVReader.h:23-25 | the number of fields is 1 + the commas seen outside quotes |
| Csv.FieldsUnquoted | cpp/include/CSVReader.h:21-22 | no field contains a quote character |
| Csv.FieldsJoin | cpp/include/CSVReader.h:18-30 | joining the fields with commas reproduces the line without its quotes |
| Csv.UnquotedLineIsSplit | cpp/include/CSVReader.h:13-33 | a line without quotes is split at every comma, like JS `split(',')` |
| Csv.QuotedComma | cpp/include/CSVReader.h:23 | a comma inside quotes stays in its field: `"a,b",c` gives `a,b` and `c` |
| Csv.ToDouble | cpp/include/CSVReader.h:36-43 | an empty or unparsable field reads as 0; otherwise it is the parsed value |
| Csv.RowFood | cpp/include/CSVReader.h:72-82 | fields 0..8 map by position to name, kcal, …, sodium |
| Csv.LoadFromCsv | cpp/include/CSVReader.h:60-85 | the loop skips the first line and empty lines, keeps rows with at least 9 fields, and maps them in file order |
| Csv.RowsAppend | cpp/include/CSVReader.h:60-85 | the rows of concatenated line lists are the concatenated rows |
| Csv.EmptyLineSkipped | cpp/include/CSVReader.h:66 | an empty line contributes no food |
| Csv.RowsMembers | cpp/include/CSVReader.h:66-84 | a food is loaded iff some line is non-empty, has at least 9 fields and maps to it |
| Csv.ParsedOrZero | app.js:101-108 | `parseFloat(x) \|\| 0` is 0 on failure and the parsed value otherwise |
| Csv.JsRowFood | app.js:98-109 | fields 0..8 map by position, with failed numbers read as 0 |
| Csv.ParseCsvApp | app.js:89-114 | skips physical line 0, then maps each trimmed non-empty line with at least 9 comma-separated parts |
| Csv.NonBlankLines | web/js/app.js:95 | every kept line is non-empty and already trimmed |
| Csv.ParseCsvWeb | web/js/app.js:94-114 | drops blank lines first, then skips the first remaining line as the header and maps the rest |
| Csv.TrimmedLines | web/js/app.js:95 | the loop computes `map(trim).filter(Boolean)` |
| Csv.DataRows | web/js/app.js:97-112 | the loop maps the lines after the header that have at least 9 parts |
| Csv.JsRowsNonBlank | app.js:93-95 | dropping blank lines first changes no row, since blank lines give no food |
| Csv.BrowserParsersAgree | web/js/app.js:95-97 | when the first line is not blank, both browser parsers load the same foods |
| Csv.LeadingBlankLine | app.js:93-95 | when the text starts with a blank line, `app.js` parses the header as a data row while `web/js/app.js` skips it as the header |
| JsIndex.Take | app.js:237 | `slice(0, n)` is a prefix of length min(len, n) |
| JsIndex.Find | app.js:121 | the lookup gives the first entry with the key, or -1 when there is none |
| JsIndex.Add | app.js:119-125 | adding a food keeps every existing key in place and adds at most one entry |
| JsIndex.BuildHashMap | app.js:117-127 | the `forEach` loop builds the map of the catalogue |
| JsIndex.GetAdd | app.js:119-125 | after adding f, the list under q gains f at its end iff f's lower-cased name is q |
| JsIndex.MapOfFacts | app.js:117-127 | keys are distinct, no list is empty, and the list under q is the catalogue foods whose lower-cased name is q, in catalogue order |
| JsIndex.GatherBag | app.js:224-234 | concatenating the lists whose key passes a test gives, as a bag, the catalogue foods whose key passes |
| JsIndex.GatherPasses | app.js:224-234 | every gathered food's key passes the test |
| JsIndex.SearchInHashMap | app.js:217-238 | the loop returns the first 20 of the concatenated matching lists |
| JsIndex.HashSearchFacts | app.js:217-238 | hash results number at most 20 and each matches the query; exact mode gives the first 20 catalogue matches in order; below the cap the results are, as a bag, all matches |
| JsIndex.FindEdge | app.js:138 | the child lookup gives the first edge with the character, or -1 when there is none |
| JsIndex.BuildTrie | app.js:130-147 | the loop builds the trie of the catalogue |
| JsIndex.SearchTrieExact | app.js:254-260 | the walk returns the foods at the node for the query, or nothing on a missing child |
| JsIndex.DigitsBelow | app.js:138-139 | counts the leading children whose keys are digits below the new key; all of them precede it and the next child does not |
| JsIndex.Place | app.js:139 | placing a child at position p keeps the children before p, puts the new one at p and shifts the rest by one |
| JsIndex.PlaceOrdered | app.js:138-139 | a new key placed at its slot keeps the children in `for…in` order: digit keys first, ascending |
| JsIndex.InsertOrdered | app.js:133-144 | inserting a food keeps every node's children in `for…in` order |
| JsIndex.TrieOrdered | app.js:130-147 | every node of the built trie lists its children in `for…in` order, so the model's child order is the order `collectAllFoods` visits |
| JsIndex.DigitChildFirst | app.js:274-279 | with "ab" inserted before "a1", the prefix collection below "a" is [a1, ab]: a digit child is visited before an older letter child |
| JsIndex.CollectAllFoods | app.js:274-279 | the recursion appends exactly the node's collected foods to the results, in pre-order with children in `for…in` order |
| JsIndex.SearchTriePrefix | app.js:262-272 | the walk returns the first 20 foods collected below the query's node, in `collectAllFoods` order |
| JsIndex.SearchInTrie | app.js:241-252 | the dispatch: exact lookup uncapped, prefix collection capped at 20, and a linear catalogue filter capped at 20 |
| JsIndex.FoundInsert | app.js:133-144 | after inserting f under a key, the exact lookup of q gains f at its end iff q is that key |
| JsIndex.CollectInsert | app.js:133-144 | after an insertion, the full collection gains exactly the inserted food |
| JsIndex.PrefixInsert | app.js:133-144 | after inserting f under a key, the collection below q gains f iff q is a prefix of the key |
| JsIndex.TrieExact | app.js:254-260 | in the built trie, exact lookup of q gives the catalogue foods whose lower-cased name is q, in catalogue order |
| JsIndex.TriePrefix | app.js:262-279 | in the built trie, the collection below q is, as a bag, the catalogue foods whose lower-cased name starts with q |
| JsIndex.TrieSearchFacts | app.js:241-279 | trie exact results are all matches, uncapped; other modes give min(matches, 20) results, each matching; below the cap, as a bag, all matches |
| JsIndex.SearchesAgree | app.js:217-252 | when there are at most 20 matches, the hash and trie searches return the same foods as a bag |
| Meal.Scale | cpp/src/main.cpp:194-203 | every nutrient is multiplied by the factor and the name is kept |
| Meal.ServingOr100 | cpp/src/main.cpp:192 | the serving size used is positive: a positive size is kept and any other becomes 100 |
| Meal.PortionDefault | main.cpp:187-199 | 100 g, or any size replaced by 100 g, adds the food unchanged |
| Meal.PortionNonNegative | main.cpp:187-199 | a serving of a food with non-negative values has non-negative values |
| Meal.Total | cpp/src/main.cpp:222-234 | the raw sum starts from `Food()`, whose name is empty |
| Meal.TotalAppend | cpp/src/main.cpp:225-234 | the total of a concatenation is the sum of the totals |
| Meal.TotalRemove | cpp/src/main.cpp:225-234 | the total with one item removed, plus that item, is the total |
| Meal.TotalPermutation | main.cpp:222-231 | the total does not depend on the order of the items |
| Meal.TotalNonNegative | main.cpp:222-231 | a meal of non-negative items has a non-negative total |
| Meal.SumItems | main.cpp:219-231 | the loop computes the field-wise total named "Your Complete Meal" |
| Meal.Choice | cpp/src/main.cpp:172-186 | a choice is accepted iff it is in 1..min(20, number of results), and then it picks the result numbered from 1 |
| Meal.PickPortion | cpp/src/main.cpp:166-203 | the loop-free body picks the chosen food and scales it, or cancels |
| Meal.ReportOf | cpp/src/main.cpp:243-247 | the reported score is in 1..10 |
| Meal.ConsoleScorer.constructor | cpp/src/main.cpp:25-30 | a new session has no items, no history and the all-zero total |
| Meal.ConsoleScorer.AddToMeal | cpp/src/main.cpp:154-210 | on cancel nothing changes; otherwise exactly one scaled item is appended and the total is marked stale; the history is untouched |
| Meal.ConsoleScorer.CalculateMealScore | cpp/src/main.cpp:212-249 | an empty meal changes nothing and reports nothing; otherwise the total becomes the named field-wise sum and its score and feedback are reported |
| Meal.ConsoleScorer.ClearMeal | cpp/src/main.cpp:251-255 | the items are emptied and the total reset to the all-zero food; the history is kept |
| Meal.ConsoleScorer.SaveCurrentMeal | cpp/src/main.cpp:257-282 | an empty meal changes nothing; otherwise a stale total is recomputed and exactly one snapshot is appended (items, total, its score and feedback) |
| Meal.ConsoleScorer.LoadMealFromHistory | cpp/src/main.cpp:284-292 | an index outside the history changes nothing; otherwise the items and total become the snapshot's |
| Meal.ConsoleScorer.DeleteMealFromHistory | cpp/src/main.cpp:294-302 | an index outside the history changes nothing; otherwise exactly that entry is removed and the rest keep their order |
| Meal.ConsoleScorer.HistoryAction | cpp/src/main.cpp:330-345 | the menu numbers meals from 1: action 1 with n in range makes meal n-1's items and total current and keeps the history; action 2 with n in range removes exactly meal n-1 and keeps the current meal; any other action or number changes nothing |
| Meal.BasicScorer.constructor | main.cpp:13-16 | a new session has no items |
| Meal.BasicScorer.AddToMeal | main.cpp:149-205 | on cancel the items are unchanged; otherwise exactly one scaled item is appended at the end |
| Meal.BasicScorer.CalculateMealScore | main.cpp:208-249 | an empty meal gives nothing; otherwise the named field-wise total and its report, with score in 1..10 |
| Meal.BasicScorer.ClearMeal | main.cpp:252-255 | the items are emptied |
| Browser.AppServing | app.js:470 | `parseFloat(v) \|\| 100` is never 0: a non-zero number is kept, and 0, `NaN` or a missing value become 100 |
| Browser.LiteGrams | web/js/app.js:201 | the grams are at least 1: the `app.js` serving when that is at least 1, otherwise 1 |
| Browser.Added | app.js:471-484 | the entry keeps the name and grams and has every nutrient multiplied by grams/100 |
| Browser.AddedIsPortion | app.js:471-484 | for a positive serving, the browser entry holds the same food as the console programs add |
| Browser.AppNegativeServing | app.js:470 | a typed -50 is kept, since only 0 and `NaN` fall back, so the entry has negative energy |
| Browser.LiteEntryNonNegative | web/js/app.js:201-215 | every web entry of a non-negative food is non-negative |
| Browser.SpliceStart | app.js:615 | `splice` starts at a non-negative index as given, counts a negative index from the end, and clamps below at 0 |
| Browser.SpliceOne | app.js:615 | `splice(index, 1)` removes one entry when the start is inside the list, and none otherwise |
| Browser.SpliceAt | app.js:615 | when the start is inside the list, exactly that entry is removed |
| Browser.SpliceKeepsOrder | app.js:615 | the entries before the removed one stay in place and those after move down by one |
| Browser.AddedTotal | app.js:530-534 | pushing an entry adds its food to the total |
| Browser.RemovedTotal | web/js/app.js:283-285 | the total after removing entry k, plus entry k, is the old total |
| Browser.SpliceTotal | app.js:614-615 | the same for a JS `splice` |
| Browser.SumMeal | web/js/app.js:226-227 | the loop computes the field-wise total of the entries |
| Browser.AppVerdict | app.js:536-537 | the meal score is the `Food.h` score of the total, in 1..10, and the feedback is the `app.js` text of its band |
| Browser.LiteVerdict | web/js/app.js:242 | the score is the `Food.h` score of a numeric total, in 1..10, and the feedback is the `web/js/app.js` text of its band |
| Browser.VerdictOrderFree | app.js:530-537 | the verdict does not depend on the order of the entries |
| Browser.MatchingPrefix | web/js/app.js:123-127 | the matches within a catalogue prefix are a prefix of all matches |
| Browser.FirstMatches | web/js/app.js:122-128 | the loop with early `break` returns the first `cap` catalogue foods whose lower-cased name contains the query |
| Browser.ScanFacts | web/js/app.js:122-128 | the scan returns at most `cap` foods, each in the catalogue and matching; all matches when there are at most `cap`, otherwise exactly `cap` |
| Browser.ScansAgree | web/js/app.js:158-164 | the first 30 of the 50-food view list are the add list, and its first 20 are the `app.js` trie-contains result |
| Browser.AppSession.constructor | app.js:1-6 | a new page has no data, no meal and no stored results |
| Browser.AppSession.FinishLoading | app.js:65-80 | after loading, the catalogue is the parsed CSV (empty on a failed fetch) with both indexes built over it, and the page is marked loaded |
| Browser.AppSession.SearchFood | app.js:150-185 | nothing is searched before loading, on an empty catalogue or on an empty query; otherwise each selected structure's list is its search result |
| Browser.AppSession.SearchForAdd | app.js:424-465 | the stored results become the hash contains list only when that list is non-empty; otherwise they are kept |
| Browser.AppSession.AddFoodToMeal | app.js:468-490 | one scaled entry is appended for a stored result at the index; with no results or an index out of range nothing is added |
| Browser.AppSession.ClearMeal | app.js:498-509 | the meal is emptied iff the user confirms |
| Browser.AppSession.CalculateMealScore | app.js:512-537 | an empty meal gives no score; otherwise the verdict of the field-wise total |
| Browser.AppSession.RemoveMealItem | app.js:614-618 | the meal becomes its JS `splice(index, 1)` |
| Browser.LiteSession.constructor | web/js/app.js:2-5 | a new page has no data, no meal and no results |
| Browser.LiteSession.FinishLoading | web/js/app.js:77-91 | after loading, the catalogue is the parsed CSV (unchanged on a failed fetch) and the page is marked loaded |
| Browser.LiteSession.SearchFood | web/js/app.js:117-134 | nothing is searched before loading or on an empty query; otherwise the first 50 matching catalogue foods |
| Browser.LiteSession.SearchForAdd | web/js/app.js:153-165 | when loaded with a non-empty query, the stored results become the first 30 matches, even when there are none |
| Browser.LiteSession.AddFoodToMeal | web/js/app.js:197-219 | an index out of range adds nothing; otherwise one entry scaled by grams of at least 1 is appended |
| Browser.LiteSession.CalculateMealScore | web/js/app.js:222-242 | an empty meal gives no score; otherwise the verdict of the field-wise total |
| Browser.LiteSession.RemoveMealItem | web/js/app.js:283-290 | an index out of range changes nothing; otherwise exactly that entry is removed and the rest keep their order |
| Browser.LiteSession.ClearMeal | web/js/app.js:292-299 | the meal is emptied iff the user confirms |

## Left out

- Console and page I/O are not modelled: menus, printing, alerts, the DOM, the loading indicator, `showScreen` (defined twice in `app.js`), timing and `comparePerformance`. Typed values and `confirm` answers are parameters.
- Data loading I/O is not modelled. `fetch`, path probing and `std::ifstream` are replaced by the text or line list they produce, passed in as a parameter.
- Number parsing (`std::stod`, `parseFloat`, unary `+`) is a parameter of type `string -> Option<real>`, because it is a library call.
- Floating point is modelled as exact `real` arithmetic, with no IEEE rounding and no `toFixed`/`setprecision` formatting.
- Case folding is ASCII-only. This matches the C++ programs, whose `std::tolower` runs in the "C" locale and folds only A–Z. The browser's `toLowerCase` also folds non-ASCII letters, which the model does not.
- PrefixTree.Path: one slot per character, whereas `Trie.h` walks the UTF-8 bytes of a `std::string`. A non-ASCII character takes two to four slots there (all in slot 26), so non-ASCII names get longer paths in the source than in the model.
- PrefixTree.ExactMatches: compares lengths and slots in characters, not bytes. A name with a non-ASCII character can match a query of another byte length ("jalape-o" and "jalapeño").
- PrefixTree.Trie.TotalNodes: the bound 1 + total name length counts characters. The source's count is bounded by the total length in bytes.
- ChainedHash.Djb2: adds one code point per character. `HashMap.h` adds `std::tolower` of each (signed) byte, so non-ASCII names land in other buckets. Since the searches walk the buckets in index order, the order of `SearchPrefix` and `SearchContains` results can then differ, and so can the food a console program picks for a typed number.
- ChainedHash.HashFunction: the bucket index of a non-ASCII name differs from the source's for the same reason.
- ChainedHash.Djb2: the hash word is fixed at 64 bits. The width of `unsigned long` is platform-dependent.
- The prefix tree of `Trie.h` is an arena of nodes with child indices rather than `unique_ptr` ownership, so memory release is not modelled.
- JsIndex.PrefixInsert: stated as a bag (multiset), not as an order. The order of the collection is fixed by the child order that JsIndex.TrieOrdered proves, but no lemma relates it to catalogue order.
- JsIndex.TriePrefix: stated as a bag, not as an order, for the same reason.
- Integer-like keys: JavaScript lists them first. Among one-character keys these are exactly the digits 0–9, and that is all the model checks.
- Browser.AppSession.RemoveMealItem: only the splice is modelled. After splicing, `app.js` calls `calculateScore()` with no argument, which throws; that refresh changes no state.
- Browser.AppSession.AddFoodToMeal: an index past the stored results makes `app.js` throw a `TypeError` before anything is pushed. The model leaves the meal unchanged, which is the same end state.
- Browser.FirstMatches: requires a cap of at least 1. Only the caps 50 and 30 are used.
- The `Food.h:10` comment calls `kcal` "Energy in kJ", but the code treats the field as kilocalories and multiplies by 4.184 (`Food.h:27-29`). The model follows the code.
- The console programs' search for foods to add is the hash table's substring search, on a table passed in. The model does not cover the trie built beside it or the `loadData` statistics.
- The saved meal's id comes from the clock and is a parameter of `SaveCurrentMeal`.
- The `app.js` score functions (`calculateScore`, `calculateNegativePoints`, `calculatePositivePoints`, lines 335-421) repeat `Food.h` threshold for threshold and are modelled by `Nutrition.Score`.
- The browser's `+x || 0` defaulting treats an empty string and `"0"` alike. Only the parsed result (a number, `NaN` or missing) is modelled.
