# claim-checker, modelled in Dafny

The claim-checker is a single React component (`claim-checker/src/App.jsx`)
with two tools that work on a block of pasted text.

- **Checker mode.** Every maximal run of decimal digits in the text is a
  claimed number. The tool computes the ascending list of claimed numbers,
  which the lookup box searches to say whether one number was claimed, and
  shows the unclaimed numbers of 1..N in ascending order, with counts and
  percentages.
- **Assigner mode.** The first two lines of the trimmed text form the
  priority ("gom") block and the rest is the general-user block. Each block is
  parsed into a map from user name to claimed numbers.
  - Priority owners are granted all their items.
  - General users are sorted by a demand-based priority score. Highest first,
    each takes the items still free; a claim on an item that someone else
    holds is recorded as a miss naming the holder.

The project models that logic and proves what it computes.

| file | module | models |
|---|---|---|
| `wrappers.dfy` | `Wrappers` | `Option` |
| `seqs.dfy` | `Seqs` | occurrence counts, first-occurrence deduplication, ascending lists, `map` |
| `text.dfy` | `Text` | `trim` (ASCII whitespace), `split`/`join` on one character, `split(/\r?\n/)`, `parseInt(s, 10)` |
| `dict.dfy` | `Dict` | a plain JavaScript object as an insertion-ordered association list |
| `checker.dfy` | `Checker` | `processClaims` and the lookup button |
| `blocks.dfy` | `Blocks` | `parseClaims`: the loop as a method, proved against a fold `Run` over classified lines |
| `scoring.dfy` | `Scoring` | the merged map, the demand counter (a method), `priorityScore`, the stable sort by descending score |
| `assignment.dfy` | `Assignment` | `assignClaims`: its `forEach` loops as methods, proved against fold functions, plus what the outcome guarantees |
| `app.dfy` | `App` | `handleGenerate`: the input gate and the split into the two blocks |

The imperative parts of App.jsx keep their form:
- the `parseClaims` loop is the method `Blocks.ParseClaims`;
- the demand `forEach` is `Scoring.CountDemand`;
- the two phases of `assignClaims` are the methods `Assignment.GrantPriority`/`GrantOne` and `Assignment.ServeGeneral`/`ServeOne`.

Each method is proved equal to a specification function. The lemmas then state
what that function guarantees. The pure parts (`processClaims`,
`priorityScore`, the block split) are functions.

Points where the code behaves in ways a reader might not expect, all kept in
the model:
- The demand counter counts every occurrence of an item in the merged map,
  including repeats inside one list, because `forEach` runs over `.flat()`.
- `countClaimed` is the size of the whole claimed set. Numbers above N and 0
  are included, so the two percentages add up to more than 100 whenever such
  a number is claimed (`Checker.PercentsSum`).
- A general user with the same name as a priority owner replaces that
  owner's `results` entry. Because `itemAssignment` holds the owner's items
  under that same name, that user's claims on them are neither got nor
  missed.

## Model

| member | source | states |
|---|---|---|
| Text.Trim | claim-checker/src/App.jsx:37 | the trimmed text is a slice of the input and everything cut off around it is whitespace; it is empty exactly when the input is all whitespace, has no whitespace at either end, and holds a digit iff the input does |
| Text.ParseInt | claim-checker/src/App.jsx:46 | `parseInt` is `NaN` exactly when no digit follows the leading whitespace and optional sign; a number is read only from a text holding a digit |
| Text.ParseIntReadsDigitPrefix | claim-checker/src/App.jsx:46 | after an optional `+`/`-`, the digit prefix up to the first non-digit is read, negated for `-` (`"12x"` is 12, `"-3"` is -3) |
| Text.LeadingZeroIgnored | claim-checker/src/App.jsx:14 | a leading zero does not change the value of a digit run (`"007"` is 7) |
| Text.Decimal | claim-checker/src/App.jsx:196-197 | the canonical decimal form of n is a digit string without a leading zero whose value is n |
| Text.ParseIntShow | claim-checker/src/App.jsx:196 | `parseInt` reads back the decimal rendering of every integer |
| Text.ParseIntSkipsSpaces | claim-checker/src/App.jsx:46 | leading whitespace does not change what `parseInt` reads (`" 7"` reads as `"7"`) |
| Text.SplitAvoids | claim-checker/src/App.jsx:37 | a character absent from the text is absent from every piece of its split |
| Text.Split | claim-checker/src/App.jsx:46 | `split(",")` gives at least one piece and no piece holds the separator |
| Text.Join | claim-checker/src/App.jsx:109-111 | `join("\n")` begins with the first piece |
| Text.JoinSplit | claim-checker/src/App.jsx:109-111 | joining the pieces of a split with the separator gives back the text |
| Text.SplitJoin | claim-checker/src/App.jsx:109-111 | splitting pieces joined with a separator none of them holds gives back the pieces |
| Text.SplitAround | claim-checker/src/App.jsx:46 | the split of `a + sep + b` is the split of `a` followed by the split of `b` |
| Text.Lines | claim-checker/src/App.jsx:37 | `split(/\r?\n/)` gives as many lines as there are pieces between line feeds (at least one), and no line holds a line feed |
| Text.LinesCRLF | claim-checker/src/App.jsx:37 | lines joined with `\r\n` split back into exactly those lines |
| Text.LinesJoin | claim-checker/src/App.jsx:109-111 | lines joined with `\n` split back into exactly those lines when none of them ends in `\r` |
| Text.LinesWithoutCR | claim-checker/src/App.jsx:37 | without carriage returns, the lines are exactly the pieces between line feeds |
| Text.JoinAvoids | claim-checker/src/App.jsx:110-111 | joining pieces free of a character (other than the separator) gives a text free of it |
| Checker.RunsFrom | claim-checker/src/App.jsx:13 | every run the scan reports lies inside the text and consists of digits |
| Checker.RunsFromAreMaximal | claim-checker/src/App.jsx:13 | the scan of `/\d+/g` reports exactly the maximal digit runs, none missed and none extra |
| Checker.Numbers | claim-checker/src/App.jsx:13-14 | one number per match of `/\d+/g` |
| Checker.ClaimedSetIsRunValues | claim-checker/src/App.jsx:13-14 | a number is in the claimed set iff some maximal digit run of the text has that value |
| Checker.InsertAscending | claim-checker/src/App.jsx:27 | inserting into a strictly ascending list keeps it strictly ascending and adds exactly the new element |
| Checker.AscendingSet | claim-checker/src/App.jsx:27 | `Array.from(new Set(xs)).sort(...)` is strictly ascending and holds exactly the elements of `xs` |
| Checker.UniverseMembers | claim-checker/src/App.jsx:15 | the universe holds exactly 1..N |
| Checker.UniverseSize | claim-checker/src/App.jsx:15 | the universe has N elements |
| Checker.UnclaimedUpTo | claim-checker/src/App.jsx:17-19 | the unclaimed list is strictly ascending and holds exactly the k in 1..N that are not claimed |
| Checker.AscendingSize | claim-checker/src/App.jsx:21-22 | a strictly ascending list has as many entries as its set of elements |
| Checker.ProcessClaims | claim-checker/src/App.jsx:12-34 | `claimed` is strictly ascending with exactly the claimed set's elements; `unclaimed` is strictly ascending and is exactly 1..N minus that set; each count is its list's length and its set's size; the counts add up to N plus the claims outside 1..N |
| Checker.CountsAdd | claim-checker/src/App.jsx:21-22 | the counts are the sizes of the claimed set and of 1..N minus it, and together they are N plus the number of claims outside 1..N |
| Checker.PartitionSizes | claim-checker/src/App.jsx:21-22 | a set and the rest of the universe count as much as the universe and the set's part outside it |
| Checker.PercentsSum | claim-checker/src/App.jsx:23-24 | the two percentages add up to at least 100, and to exactly 100 iff every claimed number lies in 1..N |
| Checker.PercentOfSum | claim-checker/src/App.jsx:23-24 | a/N·100 + b/N·100 is 100 plus a non-negative excess that is zero iff a + b = N |
| Checker.Lookup | claim-checker/src/App.jsx:196-197 | the lookup says "claimed" iff the entry has a digit and its `parseInt` value is in `claimed` |
| Checker.LookupReads | claim-checker/src/App.jsx:196-197 | after `processClaims`, the lookup says "claimed" iff `parseInt` of the entry is a non-negative number in the claimed set (`"7"`, `"07"`, `"+7"` and `" 7"` all find 7) |
| Checker.LookupDecimal | claim-checker/src/App.jsx:196-197 | looking up the decimal form of x says "claimed" iff x is in the claimed set |
| Dict.Put | claim-checker/src/App.jsx:44 | assignment to a key keeps the position of an existing key and appends a new one; the key now gives the new value, every other key its old one; unique keys stay unique |
| Dict.Find | claim-checker/src/App.jsx:47 | the lookup finds the first entry with the key, and none exactly when the key is absent |
| Blocks.ParseToken | claim-checker/src/App.jsx:46 | `parseInt(n.trim())` gives a number only for a token that holds a digit |
| Blocks.LineNumbers | claim-checker/src/App.jsx:46 | a data line gives at most one number per comma-separated token (the `NaN` ones are dropped) |
| Blocks.LineNumbersOfToken | claim-checker/src/App.jsx:46 | a token without a comma yields its `parseInt` value, or nothing when that is `NaN` |
| Blocks.LineNumbersAroundComma | claim-checker/src/App.jsx:46-47 | the tokens on either side of a comma contribute in left-to-right order |
| Blocks.PresentConcat | claim-checker/src/App.jsx:46 | the `NaN` filter distributes over concatenation |
| Blocks.Classify | claim-checker/src/App.jsx:41-45 | a line is blank iff its trim is empty, a header iff non-blank without a digit (named by its non-empty, digit-free trim), otherwise data carrying its numbers |
| Blocks.Extend | claim-checker/src/App.jsx:47 | pushing onto an existing user's list appends to that list only, keeps the key order, and does nothing for a missing user |
| Blocks.ParseClaims | claim-checker/src/App.jsx:36-51 | the loop computes the fold of its line kinds; the result has unique, non-empty, digit-free names |
| Blocks.ParsedNames | claim-checker/src/App.jsx:42-44 | a parsed claim map has unique, non-empty, digit-free names |
| Blocks.HeaderNames | claim-checker/src/App.jsx:42-43 | every name in the list of header names comes from a header line |
| Blocks.HeaderNamesOfLines | claim-checker/src/App.jsx:43 | a header read from text is non-empty and digit-free |
| Blocks.RunCurrent | claim-checker/src/App.jsx:39-43 | `currentUser` is the name on the last header line, `null` before any header |
| Blocks.RunKeys | claim-checker/src/App.jsx:44 | users appear in the order of their first header, each once |
| Blocks.RunClaims | claim-checker/src/App.jsx:40-48 | each user's list is exactly the numbers of the data lines between the user's last header and the next header; a user without a header has no entry |
| Blocks.LastHeaderIsLast | claim-checker/src/App.jsx:43 | no header follows the last header, and there is none at all when it is missing |
| Blocks.LastHeaderNamedIsLast | claim-checker/src/App.jsx:43-44 | no header for a user follows that user's last header, which is missing iff no header names the user |
| Blocks.HeaderOpensRun | claim-checker/src/App.jsx:43-44 | a header for a user (repeated or not) gives that user an empty list |
| Blocks.DataExtendsCurrent | claim-checker/src/App.jsx:45-47 | a data line appends its numbers to the current user's list |
| Blocks.DataKeepsOthers | claim-checker/src/App.jsx:45-47 | a data line leaves every other user's list alone |
| Blocks.LeadingLinesIgnored | claim-checker/src/App.jsx:41-47 | lines before the first header (blank or data) change nothing |
| Blocks.NoHeaderRun | claim-checker/src/App.jsx:38-39 | text without a header line parses to an empty map with no current user |
| Scoring.Merge | claim-checker/src/App.jsx:54 | the merged map has the keys of both maps, each once |
| Scoring.MergeGet | claim-checker/src/App.jsx:54 | a user's list replaces the priority list of the same name; other lists are kept |
| Scoring.Flatten | claim-checker/src/App.jsx:57 | an item is in the flattened values iff some list of the map holds it |
| Scoring.Tally | claim-checker/src/App.jsx:57-59 | every counted item has a count between 1 and the number of claims; `TallyCounts` gives the exact counts |
| Scoring.CountDemand | claim-checker/src/App.jsx:55-59 | the demand loop computes the tally of the flattened lists: exactly the claimed items, each with its number of occurrences |
| Scoring.TallyCounts | claim-checker/src/App.jsx:57-59 | the tally holds exactly the items, each with its number of occurrences, repeats included |
| Scoring.PriorityScore | claim-checker/src/App.jsx:61-66 | `5·len + 3·(uncontested claims) − 2·(contested claims)`; its meaning is stated by `ScoreIsWeightSum` |
| Scoring.WeightSum | claim-checker/src/App.jsx:61-66 | the weight of a list is between 3 and 8 per claim |
| Scoring.ScoreIsWeightSum | claim-checker/src/App.jsx:61-66 | `priorityScore` is the sum over claims (duplicates included) of 8 for an uncontested item, 3 for one with demand above 3, and 5 otherwise, so it lies between 3 and 8 per claim |
| Scoring.InsertBy | claim-checker/src/App.jsx:68-69 | inserting into a list ordered by descending key keeps it ordered and adds exactly the element |
| Scoring.InsertStable | claim-checker/src/App.jsx:68-69 | inserting keeps the relative order of the elements of each key and puts the new element after its equals |
| Scoring.SortBy | claim-checker/src/App.jsx:68-69 | the sort is ordered by descending key and is a permutation |
| Scoring.SortStable | claim-checker/src/App.jsx:68-69 | the sort keeps the relative order of elements with equal keys |
| Scoring.SortUsers | claim-checker/src/App.jsx:68-69 | the sorted users are a permutation of the users, in non-increasing `priorityScore` order |
| Scoring.SortUsersStable | claim-checker/src/App.jsx:68-69 | users with equal scores keep their map order |
| Assignment.AssignClaims | claim-checker/src/App.jsx:53-95 | the whole routine computes the specification `AssignSpec`, which the lemmas below describe |
| Assignment.GrantPriority | claim-checker/src/App.jsx:74-80 | the priority loop leaves the holders and `results` of the priority fold `GrantGoms` |
| Assignment.GrantOne | claim-checker/src/App.jsx:76-79 | one owner's inner loop computes `GrantItems` |
| Assignment.ServeGeneral | claim-checker/src/App.jsx:82-92 | the general-user loop computes the fold `ServeUsers` from the priority phase's objects |
| Assignment.ServeOne | claim-checker/src/App.jsx:84-91 | one user's inner loop computes `ServeItems` |
| Assignment.AssignSpec | claim-checker/src/App.jsx:53-92 | `assignClaims` as a function: the user fold `ServeUsers` run from the priority fold `GrantGoms`, over the users sorted by score; described by `Exclusive`, `PriorityGranted` and `ResultNames` |
| Assignment.GrantItems | claim-checker/src/App.jsx:76-79 | one owner's inner loop as a fold; described by `GrantItemsOwner` and `GrantItemsOutcome` |
| Assignment.GrantGoms | claim-checker/src/App.jsx:74-80 | the priority `forEach` as a fold from two empty objects; described by `GrantGomsOwner` and `GrantGomsResults` |
| Assignment.ServeItem | claim-checker/src/App.jsx:85-90 | one claim of a general user: taken when free, a miss when another name holds it, otherwise nothing; described by `ServeItemOwner` |
| Assignment.ServeItems | claim-checker/src/App.jsx:84-91 | one general user's inner loop as a fold; described by `ServeItemsOwner`, `ServeItemsGot`, `ServeItemsMissed` and `ServeItemsFrame` |
| Assignment.ServeUsers | claim-checker/src/App.jsx:82-92 | the user `forEach` as a fold over the sorted users; described by `ServeUsersFrame` and `ServeUsersSettled` |
| Assignment.LastClaimant | claim-checker/src/App.jsx:74-77 | an item has a last priority claimant iff some priority list holds it, and that claimant is a priority owner |
| Assignment.GrantItemsOwner | claim-checker/src/App.jsx:76-77 | an owner's loop makes it the holder of every item on its list and changes no other holder |
| Assignment.GrantItemsOutcome | claim-checker/src/App.jsx:75-79 | an owner's loop appends its whole list (duplicates included) to its `got` and touches no other entry |
| Assignment.GrantGomsOwner | claim-checker/src/App.jsx:74-80 | after the priority phase, exactly the items on priority lists are held, each by the LAST owner listing it; `results` has exactly the priority owners |
| Assignment.GrantGomsResults | claim-checker/src/App.jsx:74-80 | after the priority phase every owner's `got` is its whole list and its `missed` is empty |
| Assignment.FreeItems | claim-checker/src/App.jsx:85 | the free claims are exactly the claimed items nobody held (or held under a falsy name) at the start |
| Assignment.Missed | claim-checker/src/App.jsx:88-89 | every recorded miss is a claimed item held by another name, with `takenBy` that holder |
| Assignment.ServeItemOwner | claim-checker/src/App.jsx:85-86 | one claim changes the holders only when the item is free, and then makes the user its holder |
| Assignment.ServeItemsOwner | claim-checker/src/App.jsx:84-91 | a user's loop takes over exactly the items free at its start and leaves every other holder alone |
| Assignment.ServeItemsGot | claim-checker/src/App.jsx:84-87 | a user's `got` gains exactly the items free at the start of its loop, in first-claim order, each once |
| Assignment.ServeItemsMissed | claim-checker/src/App.jsx:88-89 | a user's `missed` gains one entry per claim on an item another name held at the start, naming that holder, in claim order; claims on the user's own items are dropped |
| Assignment.ServeItemsFrame | claim-checker/src/App.jsx:84-91 | a user's loop touches only that user's `results` entry |
| Assignment.ServeUsersFrame | claim-checker/src/App.jsx:82-92 | the user phase leaves entries of names it does not serve alone and adds exactly the served names |
| Assignment.SortedNames | claim-checker/src/App.jsx:68-69 | sorting keeps the set of user names |
| Assignment.ServeUserSettled | claim-checker/src/App.jsx:82-92 | serving one more user keeps the priority holders, keeps holder names non-empty, and every item in a served user's `got` is held by that user and was not a priority item |
| Assignment.ServeUsersSettled | claim-checker/src/App.jsx:82-92 | the whole user phase keeps that invariant for every served name |
| Assignment.PriorityHolders | claim-checker/src/App.jsx:74-80 | after the priority phase exactly the priority items are held, all by non-empty names |
| Assignment.SettledExclusive | claim-checker/src/App.jsx:85-87 | under the invariant no item is in two served users' `got` or was held after the priority phase |
| Assignment.Exclusive | claim-checker/src/App.jsx:74-92 | no item is in two general users' `got`, and no general user gets an item any priority owner claimed |
| Assignment.PriorityGranted | claim-checker/src/App.jsx:74-92 | a priority owner no general user shares a name with ends with its whole list as `got` and no misses |
| Assignment.ResultNames | claim-checker/src/App.jsx:72-92 | `results` has an entry for a name iff it is a priority owner or a general user |
| App.ValidTotal | claim-checker/src/App.jsx:98-99 | the total is accepted iff `parseInt` gives a number of at least 1, and it is that number |
| App.HandleGenerate | claim-checker/src/App.jsx:97-117 | nothing is computed iff the trimmed text is empty or the total is `NaN` or below 1; otherwise checker mode gives `processClaims(rawData, total)` when the total is below 2^32 and aborts (the `RangeError` of `Array.from`) when it is not, and assigner mode gives `assignClaims` on the two parsed blocks |
| App.PriorityBlock | claim-checker/src/App.jsx:109-110 | the first two lines of the trimmed text joined with `\n`; described by `BlocksSplitLines` |
| App.UserBlock | claim-checker/src/App.jsx:109-111 | the remaining lines joined with `\n`; described by `BlocksSplitLines` |
| App.BlocksSplitLines | claim-checker/src/App.jsx:109-111 | when no line of the trimmed text ends in `\r`, the priority block reads back as its first two lines and the user block as the remaining lines (one empty line when there are none) |
| App.AssignedExclusive | claim-checker/src/App.jsx:108-114 | in assigner mode no item is in two general users' `got`, and no general user gets an item claimed in the priority block |

## Left out

- React state, rendering and the alert. The model returns an `Outcome` value (`Rejected`, `Checked`, `Aborted` or `Assigned`) in their place.
- The in-place sort of each `got` list for display (claim-checker/src/App.jsx:216): presentation only.
- `toFixed(2)` and floating point: the percentages are the exact reals count·100/N.
- JavaScript `Number` precision: digit runs are read as unbounded naturals, so runs beyond 2^53 are exact in the model where JavaScript would round.
- Unicode whitespace: `trim` and `parseInt` skip only the ASCII whitespace characters (space, tab, line feed, vertical tab, form feed, carriage return).
- Object keys with JavaScript's special behaviour: integer-like keys are enumerated first and `__proto__` is special. Names from `parseClaims` contain no digit, so only `__proto__` is not modelled.
- Assignment.AddGot, Assignment.AddMiss: when the user has no `results` entry they return `results` unchanged, where JavaScript would throw. `assignClaims` (App.jsx:75, 83) always creates the entry first, so this case is not reached.
- Modes other than checker and assigner: the UI offers only those two.
- Memory limits: a total below 2^32 that is still too large to allocate is modelled as computed.
- App.BlocksSplitLines: stated only when no line of the trimmed text still ends in `\r` after `split(/\r?\n/)` (ordinary `\r\n` text qualifies; `"a\r\r\nb"` does not). For such a line, `join("\n")` followed by the split drops that `\r`, so the line does not read back unchanged; `parseClaims` trims every line, so its result is the same either way.
- `claim-checker/vite.config.js`: build configuration, no logic.
