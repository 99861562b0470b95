# Dining-hall order ranking, modelled in Dafny

The Go package `order` reads a log of dining-hall orders. Each line of the log is
`eaterID, foodMenuID`. `FetchTopThreeOrderedItems` runs four stages and stops at
the first error:

1. **Extension gate.** The file name's extension (Go's `filepath.Ext`, lowercased
   in ASCII) must be `.txt`. Otherwise the result is an unknown-category error
   with code 700.
2. **Line parser** (`fetchOrderDetails`). The file must open, or the result is a
   not-found error with code 701. Each line is split on `,` into exactly two
   fields. Each field is trimmed of spaces and read with `strconv.Atoi`. The first
   bad line gives an incorrect-input error with code 702.
3. **Aggregator** (`fetchCountOfOrderedItemByEater`). It walks the records and
   remembers each eater's most recent item. A record is refused (code 702) when it
   repeats that item. Otherwise it counts the records per menu item.
4. **Ranker** (`sortItemsByCountDesc`). It lists the menu items by
   non-increasing count. The order among equal counts is not fixed.

On any error both results are nil. The `errors` package supplies the error
record: a code plus one of four categories.

Files:

- `wrappers.dfy` holds `Option`.
- `errors.dfy` (module `Errors`) holds the error record and its constructors.
- `gotext.dfy` (module `GoText`) holds the Go library functions the parser relies
  on: `filepath.Ext`, `strings.ToLower`, `strings.Split`, `strings.Trim` and
  `strconv.Atoi`. `Split`, `Trim` and `Atoi` have inverses (`Join`, padding
  with spaces, `Itoa`) and round-trip lemmas. `Ext` is pinned down by
  `ExtEmpty` and `Order.ExtAtLastDot`, and `ToLower` by its per-character map.
- `order.dfy` (module `Order`) holds the pipeline.
  - The parser is a method with a loop. It is proved against `ParsedOrders` and
    `FirstBadLine`.
  - The aggregator is a method that updates two maps in a loop. It is proved
    against `HasDuplicate` and `ItemCounts`.
  - The ranker copies the keys into an array and sorts it in place, then proves
    the result a ranking: a permutation of the keys with non-increasing counts.
- `order_scenarios.dfy` (module `OrderScenarios`) restates the package's test
  inputs and expected outcomes as lemmas and two methods about the model.

Two behaviours of the code a reader might not expect:

- An empty line is not skipped. It splits into one field and is rejected.
- When a line has the wrong number of fields, `fetchOrderDetails` returns the
  records parsed so far together with the error (the bare `return` at
  order/order_details.go:69 returns the named result). When an integer fails to
  parse, it returns nil. `FetchOrderDetails` models both cases. The public entry
  point discards the records in either case.

## Model

| member | source | states |
|---|---|---|
| Errors.NewUnknownError | errors/errors.go:30-44 | the error gives back the code it was built with from `Code()`, and the category "unknown" from `ErrorType()` |
| Errors.NewInvalidFileError | errors/errors.go:46-52 | despite its name, it gives the category "authorization", and it gives back the code it was built with |
| Errors.NewIncorrectInputError | errors/errors.go:54-60 | it gives back its code, with the category "incorrect-input" |
| Errors.NewNotFoundError | errors/errors.go:62-68 | it gives back its code, with the category "not-found" |
| Errors.CategoriesDistinct | errors/errors.go:7-12 | the four declared categories are pairwise different |
| Errors.ConstructorsAreDistinguishable | errors/errors.go:34-68 | errors from different constructors are never equal, whatever their codes, and every constructor yields a declared category |
| Order.ErrorCodesConsecutive | order/order_details.go:15-19 | the codes are 700, 701 and 702, in declaration order |
| GoText.Ext | order/order_details.go:28 | the extension is a suffix of the path; when non-empty it starts with its only '.' and holds no '/' |
| GoText.ExtEmpty | order/order_details.go:28 | an empty extension means every '.' in the path lies in a directory part, before some '/' |
| GoText.ToLower | order/order_details.go:31 | lowercasing keeps the length and maps each character through the ASCII lowercase map |
| Order.ValidExtension | order/order_details.go:28-31 | the gate passes only when the extension is exactly the name's last four characters |
| Order.ValidExtensionIff | order/order_details.go:28-34 | the gate passes if and only if the name's last four characters, lowercased, are ".txt" |
| Order.ExtAtLastDot | order/order_details.go:28 | a '.' with no later '.' or '/' starts the extension |
| GoText.Split | order/order_details.go:66 | the number of parts is the separator count plus one, no part holds the separator, and joining the parts gives back the line |
| GoText.SplitAtOnly | order/order_details.go:66-67 | a line with exactly one separator splits into the text before it and the text after it |
| GoText.SplitNone | order/order_details.go:66-67 | a line without the separator, the empty line included, splits into itself alone |
| GoText.Trim | order/order_details.go:72-78 | the trimmed text neither starts nor ends with the trimmed character |
| GoText.TrimLeftSpec | order/order_details.go:72-78 | left trimming removes a prefix made only of the character, and what remains does not start with it |
| GoText.TrimRightSpec | order/order_details.go:72-78 | right trimming removes a suffix made only of the character, and what remains does not end with it |
| GoText.TrimIsSlice | order/order_details.go:72-78 | the trimmed text is a slice of the input, and only the character was cut from either side |
| GoText.TrimPadded | order/order_details.go:72-78 | trimming a padded text gives back the text, when the text does not itself start or end with the pad |
| GoText.Atoi | order/order_details.go:72-82 | a field is accepted if and only if it is an optional sign followed by one or more digits whose value fits in 64 bits, and the result is that value |
| GoText.AtoiItoa | order/order_details.go:72-82 | every 64-bit integer, written in decimal, reads back as itself |
| GoText.AtoiRejectsNonDigit | order/order_details.go:72-82 | a field with a non-digit after its first character is rejected |
| Order.ParseLine | order/order_details.go:66-84 | a line is rejected for its field count if and only if it does not hold exactly one comma, and a parsed record has 64-bit fields |
| Order.ParsePaddedLine | order/order_details.go:66-84 | any record with 64-bit fields, written as two decimal numbers around one comma with any spaces about them, parses back to that record |
| Order.FirstBadLine | order/order_details.go:62-85 | every line before the first bad line parses, and the first bad line, when there is one, is rejected |
| Order.ParsedOrders | order/order_details.go:62-85 | on a log where every line parses, the records match the lines one to one, in order |
| Order.FetchOrderDetails | order/order_details.go:51-87 | the parser succeeds if and only if every line parses, and it then returns the records of the lines in order. Otherwise it fails with incorrect-input 702. It then returns the records before the first bad line when that line has the wrong number of fields, and nothing when a field is not an integer |
| Order.StopAt | order/order_details.go:62-82 | a rejected line after parsed lines is the first bad line of the log |
| Order.ParsedSnoc | order/order_details.go:62-85 | a line that parses after parsed lines extends the records by exactly its own record |
| Order.FirstBadLineAt | order/order_details.go:62-82 | a rejected line whose predecessors all parse is the first bad line |
| Order.LastItemIsMostRecent | order/order_details.go:94-107 | the remembered item of an eater is the item of that eater's last record, and of no other record |
| Order.LastItemSnoc | order/order_details.go:107 | a new record replaces its own eater's remembered item and leaves every other eater's unchanged |
| Order.LastItemStep | order/order_details.go:107 | one step of the loop updates the remembered items exactly as a new record does |
| Order.LastItemAbsent | order/order_details.go:98 | an eater with no record has no remembered item |
| Order.FetchCountOfOrderedItemByEater | order/order_details.go:89-110 | the aggregator fails, with incorrect-input 702 and no counts, if and only if some record repeats its eater's previous item. Otherwise it returns the per-item counts of the records |
| Order.ItemCountsStep | order/order_details.go:106 | one step of the loop adds one to the count of the record's item and leaves the other counts alone |
| Order.ItemCountsMeaning | order/order_details.go:105-109 | the counted items are exactly the items of the records, and each count is the number of records with that item, at least one |
| Order.CountConcat | order/order_details.go:105-106 | the count of an item over two runs of records is the sum of its counts over each |
| Order.ItemsSnoc | order/order_details.go:106 | a new record adds its item to the set of ordered items |
| Order.DistinctEatersNoDuplicate | order/order_details.go:97-103 | a log in which no eater appears twice is never refused as a duplicate |
| Order.DuplicateIsRepeatedPair | order/order_details.go:97-103 | a refused log holds two equal records |
| Order.RepeatedPairIsDuplicate | order/order_details.go:97-103 | a record equal to an earlier record of the same eater, with no record of that eater in between, is refused, whatever other eaters ordered meanwhile |
| Order.NonAdjacentRepeatAccepted | order/order_details.go:97-103 | an eater ordering X, then Y, then X again is accepted, while X twice in a row is refused |
| Order.MaxCountFrom | order/order_details.go:119-121 | the index found holds a greatest count among the rest of the array |
| Order.SortByCountDesc | order/order_details.go:119-121 | the sort leaves the array a permutation of its old contents, with non-increasing counts |
| Order.SortItemsByCountDesc | order/order_details.go:112-123 | the result ranks the count map: it is a permutation of the keys, with non-increasing counts |
| Order.RankingIsPermutation | order/order_details.go:112-123 | a ranking lists every key of the count map exactly once, and nothing else |
| Order.SumOfCountsSnoc | order/order_details.go:105-106 | a new record adds to the summed counts once for each time its item is listed |
| Order.SumOfCountsIsLength | order/order_details.go:105-109 | summed over a repeat-free list that covers every ordered item, the counts add up to the number of records |
| Order.SumCountsOfItemCounts | order/order_details.go:105-109 | summing the count map along a list of its keys is summing the records' counts |
| Order.RankedCountsSum | order/order_details.go:105-123 | along any ranking, the counts add up to the number of records |
| Order.FetchTopThreeOrderedItems | order/order_details.go:26-49 | a bad extension gives unknown-category 700 before anything else, and a file that cannot be opened gives not-found 701. A log that fails to parse or holds a duplicate gives incorrect-input 702. Any error leaves both results nil. Otherwise the counts are the per-item counts of the parsed records, and the list ranks them |
| OrderScenarios.NoExtensionRefused | order/order_details_test.go:22 | the name "log" is refused by the gate |
| OrderScenarios.TestNamesAccepted | order/order_details_test.go:23 | "text.txt" and "log_test.txt" pass the gate |
| OrderScenarios.UpperCaseExtensionAccepted | order/order_details.go:31 | "a.TXT" passes the gate: the extension is lowercased before the comparison |
| OrderScenarios.DirectoryDotRefused | order/order_details.go:28 | "notes.txt/log" is refused by the gate: its only dot lies in a directory name |
| OrderScenarios.EarlierDotRefused | order/order_details.go:28 | "log.txt.bak" is refused by the gate: its extension is ".bak" |
| OrderScenarios.MissingCommaRejected | order/order_details_test.go:45 | "2 2" is rejected for its field count |
| OrderScenarios.EmptyLineRejected | order/order_details.go:66-70 | the empty line is rejected for its field count |
| OrderScenarios.ExtraCommaRejected | order/order_details.go:66-70 | "1,2,3" is rejected for its field count |
| OrderScenarios.BadEaterRejected | order/order_details_test.go:76 | "A,1" is rejected for its eater field |
| OrderScenarios.BadMenuItemRejected | order/order_details_test.go:113 | "2, A" is rejected for its menu field |
| OrderScenarios.MissingCommaLog | order/order_details_test.go:45 | in the missing-comma log, the second line is the first bad one |
| OrderScenarios.BadEaterLog | order/order_details_test.go:76 | in the bad-eater log, the first line is the first bad one |
| OrderScenarios.BadMenuItemLog | order/order_details_test.go:113 | in the bad-menu-item log, the second line is the first bad one |
| OrderScenarios.EmptyLineLog | order/order_details.go:62-70 | the empty middle line of ["1,1", "", "2,2"] is its first bad line |
| OrderScenarios.DuplicateLog | order/order_details_test.go:144 | the duplicate test's log parses and is refused as a duplicate |
| OrderScenarios.FixtureParses | order/order_details_test.go:175 | the ten-line log parses to its ten records |
| OrderScenarios.FixtureAggregates | order/order_details_test.go:175-179 | the ten records hold no duplicate, and their counts are {1:3, 2:5, 3:2} |
| OrderScenarios.FixtureRanking | order/order_details_test.go:178 | the only ranking of those counts is [2, 1, 3] |
| OrderScenarios.SuccessTest | order/order_details_test.go:167-204 | the entry point's contract gives the success test's log no error, the counts {1:3, 2:5, 3:2} and the ranking [2, 1, 3] |
| OrderScenarios.FailureTests | order/order_details_test.go:14-165 | each failing test's input gives its code (700, 701, then 702 four times) and nil results |

## Left out

- File I/O. `os.Open` and `defer file.Close()` are modelled as an optional list of lines, where None means the file could not be opened.
- `bufio.Scanner` line splitting is not modelled. This covers its removal of "\r" before "\n", its buffer limit, and the unchecked `scanner.Err()`. The log arrives already split into lines.
- Error message text. The `fmt.Errorf` messages and `Error()` are not modelled: an error is a code and a category. The accessors `Code` and `ErrorType` return a field and carry no contract of their own. The constructors' contracts state what they return.
- `filepath.Ext` uses only '/' as the path separator. Other operating systems' separators are not modelled.
- `strings.ToLower` is modelled for ASCII only. Strings are sequences of characters standing for Go's bytes, and multi-byte characters are not modelled.
- `strconv.Atoi` is modelled on a 64-bit platform. Underscores are never accepted, as in base 10.
- Order.SortItemsByCountDesc: promises only a ranking (a permutation of the keys with non-increasing counts). It does not fix the order among equal counts. `sort.Slice` is not stable, and Go's map iteration order is random. A selection sort stands in for `sort.Slice`.
- Go slices and maps are modelled as Dafny sequences and maps. Only the ranker's in-place sort uses an array.
- The top-three printing, the hard-coded file name and the `panic` in `main.go` are not part of this model.
- The test file's fixture writing is not modelled. Its inputs and expected outputs are restated in `order_scenarios.dfy`.
